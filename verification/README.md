# DeFi pair screener — a Dafny model

This project models the pair-screening core of a DeFi market dashboard.
The dashboard searches a market-data provider for trading pairs. It then
classifies each pair as `stable`, `meme` or `volatile` and keeps the pairs
that pass a chain allow-list, a liquidity threshold, a 24h-volume threshold
and a category filter. It returns at most 60 of them, in their original
order. The page turns that list into four headline figures and keeps the
chain selection, search term and selected pair in step. The table and
detail panel then colour and label each pair.

Every part is a pure function over immutable datatypes:

- `Pairs` (`pairs.dfy`): the pair record of `types/pair.ts`. Every field the
  code reads through `?.` or `??` is an `Option`. Money and counts are `real`.
- `Text` (`text.dfy`): JavaScript's `trim` over the full ECMAScript
  WhiteSpace/LineTerminator set, ASCII `toUpperCase`/`toLowerCase`,
  `split` on one character, and `includes`.
- `Seqs` (`seqs.dfy`): `reduce`-sums, `slice(0, n)` and order-preserving
  subsequences.
- `Classifier` (`classifier.dfy`): `classifyPairType`.
- `Screener` (`screener.dfy`): parameter resolution and the
  `filter(...).slice(0, 60)` chain of the search route.
- `Headline` (`headline.dfy`): the `headlineMetrics` aggregation.
- `Dashboard` (`dashboard.dfy`): `toggleChain`, `handleSearch` and the
  selected-pair effect.
- `PairTable` (`pair_table.dfy`): the activity chip, the change tone and the
  highlighted row.
- `PairDetail` (`pair_detail.dfy`): `latestPoint`, `latestVolume`, and the
  price/change cells with their tones.

Behaviour of the code that the model keeps, where a short description
of the route would say otherwise:

- A pair is dropped when its `chainId` is absent **or the empty string**,
  because `!pair?.chainId` tests truthiness (`HasChain`).
- A threshold applies whenever it is non-zero, not only when it is
  positive, because `minLiquidity && ...` tests truthiness (`Keep`).
- `pairType` is an arbitrary query string. A value that names no category
  rejects every pair (`UnknownPairTypeRejectsAll`).
- `toggleChain` removes **every** copy of a present id, because it uses
  `filter`.
- `slice(-8)` on fewer than eight points takes them all (`LastPoints`).

## Model

| member | source | states |
|---|---|---|
| Text.Trim | app/api/pairs/route.ts:45 | the result is the slice of the input left after removing all leading and trailing JS whitespace: neither end is a space, everything cut off is space, and it is empty exactly when the input is all space |
| Text.TrimmedOr | app/page.tsx:73 | the trimmed text when it is not empty, otherwise the fallback |
| Text.TrimIdempotent | app/page.tsx:73 | trimming an already trimmed text changes nothing |
| Text.JoinSplit | app/api/pairs/route.ts:44 | joining the pieces of `split(",")` with the separator restores the original text |
| Text.SplitJoin | app/api/pairs/route.ts:44 | splitting a join of separator-free pieces gives back exactly those pieces |
| Text.Split | app/api/pairs/route.ts:44 | `split` always gives at least one piece, and no piece contains the separator |
| Text.Contains | app/api/pairs/route.ts:26 | `includes`, tried at each start position in turn |
| Text.ContainsOccurs | app/api/pairs/route.ts:26 | `includes` holds exactly when the keyword occurs at some index of the symbol |
| Text.Upper | app/api/pairs/route.ts:19-20 | `toUpperCase` keeps the length |
| Text.UpperChars | app/api/pairs/route.ts:19-20 | upper-casing maps each ASCII lower-case letter to its capital, keeps every other character, and leaves no lower-case ASCII letter |
| Text.Lower | app/api/pairs/route.ts:45 | `toLowerCase` keeps the length |
| Text.LowerChars | app/api/pairs/route.ts:45 | lower-casing maps each ASCII capital to its lower-case letter, keeps every other character, and leaves no ASCII capital |
| Pairs.BaseSymbol | app/api/pairs/route.ts:68 | the base token's symbol, or the empty string when the token or its symbol is absent |
| Pairs.QuoteSymbol | app/api/pairs/route.ts:68 | the quote token's symbol, or the empty string when the token or its symbol is absent |
| Pairs.LiquidityUsd | app/api/pairs/route.ts:74 | the pair's USD liquidity, with an absent liquidity record or USD figure counting as 0 |
| Pairs.Volume24h | app/api/pairs/route.ts:78 | the pair's 24h volume, with an absent volume record or 24h figure counting as 0 |
| Pairs.Txns24h | app/page.tsx:89 | the pair's 24h transaction count, with an absent record or 24h figure counting as 0 |
| Pairs.Change1h | components/pair-detail.tsx:47 | the 1h price change, absent when the change record or its 1h figure is absent |
| Pairs.Change6h | components/pair-detail.tsx:48 | the 6h price change, absent when the change record or its 6h figure is absent |
| Pairs.Change24h | components/pair-detail.tsx:49 | the 24h price change, absent when the change record or its 24h figure is absent |
| Classifier.MemeKeywordOccurs | app/api/pairs/route.ts:16-26 | the `some` test over the meme keywords holds exactly when some keyword occurs at some position in either upper-cased symbol |
| Classifier.Classify | app/api/pairs/route.ts:18-31 | `stable` exactly when either upper-cased symbol is in the stablecoin set; `meme` exactly when not stable and a keyword occurs in either upper-cased symbol; `volatile` exactly when neither |
| Classifier.StablePrecedence | app/api/pairs/route.ts:22-24 | a stablecoin symbol makes the pair stable even when a meme keyword is present too |
| Classifier.ClassifyCaseInsensitive | app/api/pairs/route.ts:19-20 | classifying the upper-cased symbols gives the same category as the raw ones |
| Classifier.ClassifySymmetric | app/api/pairs/route.ts:22-26 | swapping base and quote symbols never changes the category |
| Classifier.MemeKeywordMakesMeme | app/api/pairs/route.ts:26-28 | a non-stable pair with any keyword occurrence in either symbol is a meme pair |
| Classifier.StableExamples | app/api/pairs/route.ts:4-14 | `usdc/xyz` is stable regardless of case, and `PEPE/USDT` is stable despite its meme keyword |
| Classifier.MemeExample | app/api/pairs/route.ts:16 | a symbol that merely contains `SHIB` (here `ShibaCoin`) makes the pair a meme pair |
| Classifier.ShortSymbolsVolatile | app/api/pairs/route.ts:4-30 | any two symbols shorter than three characters are volatile, since every stablecoin symbol and every meme keyword has at least three |
| Classifier.VolatileExample | app/api/pairs/route.ts:30 | the single pair `op`/empty symbol is volatile |
| Screener.ResolveQuery | app/api/pairs/route.ts:36 | the search text is the trimmed `query` parameter, or `top` when the parameter is absent or blank; it is never empty |
| Screener.NormalizeChainId | app/api/pairs/route.ts:45 | a normalized chain id is trimmed, has no capital letter, gains no comma, and is empty exactly when the entry was all space |
| Screener.NormalizeChainIdCase | app/api/pairs/route.ts:45 | up to case, the normalized id is the trimmed entry; with no capital letter in it, this makes it the lower-cased trim |
| Screener.NormalizeChainIds | app/api/pairs/route.ts:45-46 | every entry is a well-formed chain id (non-empty, trimmed, lower-case, comma-free) and there are no more entries than pieces |
| Screener.ParseChains | app/api/pairs/route.ts:37-47 | an absent or blank `chains` parameter gives the empty list; otherwise every entry is non-empty, trimmed, lower-case and comma-free |
| Screener.ParseChainsPieces | app/api/pairs/route.ts:42-47 | for a non-blank parameter, the entries are, in order, the normalized forms of some of the comma-separated pieces, and every piece that is not blank contributes its normalized form |
| Screener.NormalizeAppend | app/api/pairs/route.ts:44-46 | the entries of two runs of pieces are the entries of the first run followed by those of the second |
| Screener.NormalizeSingle | app/api/pairs/route.ts:45-46 | one piece gives its normalized form, or nothing when it is blank |
| Screener.NormalizeExample | app/api/pairs/route.ts:44-46 | the pieces `Ethereum` and ` BSC` give `ethereum` and `bsc` |
| Screener.ResolvePairType | app/api/pairs/route.ts:40 | the `pairType` parameter when present and non-empty, otherwise `all` |
| Screener.FiltersOf | app/api/pairs/route.ts:37-47 | the criteria the filter callback closes over: the parsed chain list, the two thresholds and the resolved `pairType` |
| Screener.ParseChainsJoin | app/api/pairs/route.ts:42-47 | parsing the comma-join of well-formed chain ids gives back exactly that list, in order |
| Screener.FilterPairs | app/api/pairs/route.ts:65-87 | the filtered list is an order-preserving subsequence of the input whose every pair passes the filter callback |
| Screener.FilterComplete | app/api/pairs/route.ts:65-87 | every pair of the input that passes the filter callback is in the filtered list |
| Screener.HasChain | app/api/pairs/route.ts:67 | a pair without a chain id, or with an empty one, is dropped |
| Screener.Keep | app/api/pairs/route.ts:66-86 | the filter callback: chain id present, chain allowed when a list is given, each non-zero threshold met with absent figures as 0, and the category requested unless `all` |
| Screener.Screen | app/api/pairs/route.ts:65-88 | the answer has at most 60 pairs and no more than the input, is an order-preserving subsequence of it, and every pair has a chain id, is on an allowed chain (lower-cased) when a list is given, meets each non-zero threshold with absent figures as 0, and has the requested category unless `all` |
| Seqs.Take | app/api/pairs/route.ts:88 | `slice(0, n)`: at most `n` elements and at most the input, the whole input when it is short enough, and each element is the input's element at that index |
| Screener.ScreenKeepsEarlyMatches | app/api/pairs/route.ts:88 | a pair that passes every filter with fewer than 60 passing pairs before it appears in the answer, at the position equal to that count |
| Screener.ScreenDefaults | app/api/pairs/route.ts:65-88 | with no chain list, zero thresholds and no `pairType`, and every pair on a chain, the answer is the first 60 pairs unchanged |
| Screener.UnknownPairTypeRejectsAll | app/api/pairs/route.ts:82-84 | a `pairType` that is neither `all` nor a category name yields an empty answer |
| Screener.ZeroLiquidityIgnoresLiquidity | app/api/pairs/route.ts:74-76 | with a zero liquidity threshold, a pair's liquidity, present or absent, never decides whether it is kept |
| Screener.ZeroVolumeIgnoresVolume | app/api/pairs/route.ts:78-80 | with a zero volume threshold, a pair's 24h volume, present or absent, never decides whether it is kept |
| Screener.ChainCaseInsensitive | app/api/pairs/route.ts:70-72 | two chain ids that lower-case alike are kept or rejected alike |
| Screener.AllTypesKeepsEveryCategory | app/api/pairs/route.ts:82-84 | with `pairType` `all`, replacing both the base and the quote token never changes whether a pair is kept |
| Screener.LiquidityThresholdExample | app/api/pairs/route.ts:74-76 | a pair with $50 of liquidity is dropped at a $100 threshold and kept at a zero threshold |
| Headline.DexIdsCount | app/page.tsx:90 | the number of distinct venues is at most the number of pairs, at least one for a non-empty list, and equal to the number of pairs exactly when no venue repeats |
| Headline.DexIds | app/page.tsx:90 | the set of the pairs' `dexId`s |
| Headline.HeadlineMetrics | app/page.tsx:76-93 | an empty list gives all zeros; otherwise the average transaction count times the pair count is the sum of 24h transactions (absent as 0), and the distinct-venue count lies between 1 and the pair count |
| Headline.UniqueDexesSnoc | app/page.tsx:90 | appending a pair raises the venue count by one exactly when no earlier pair is on its venue; from the empty list this makes it the number of distinct venues |
| Headline.HeadlineAppend | app/page.tsx:86-87 | total liquidity and total volume of a concatenation are the sums of the pieces' totals |
| Headline.HeadlineSwap | app/page.tsx:86-87 | total liquidity and total volume do not depend on the order of the pieces |
| Headline.HeadlineSingle | app/page.tsx:86-90 | one pair's figures are its liquidity, volume and transactions (absent as 0) and one venue |
| Headline.TotalLiquidityBoundsEach | app/page.tsx:86 | with no negative liquidity, every pair's liquidity lies between 0 and the total |
| Headline.TwoPairExample | app/page.tsx:76-93 | two pairs with $100 and $200 of liquidity and nothing else give 300, 0, 0 and one or two venues |
| Dashboard.RemoveAll | app/page.tsx:65 | the filtered selection has every id but the toggled one, in order, and none of the toggled one |
| Dashboard.RemoveAllCounts | app/page.tsx:65 | the filter drops every copy of the toggled id and keeps every copy of every other id |
| Dashboard.ToggleChain | app/page.tsx:62-70 | an absent id is appended at the end; a present id is removed with its copies, keeping the order of the rest, unless it was all there was, in which case the list stays; a non-empty selection never becomes empty |
| Dashboard.ToggleChainCounts | app/page.tsx:62-70 | nothing but the toggled id changes: one copy is added, all its copies are removed, or the selection stays when the id was all there was |
| Dashboard.ToggleTwice | app/page.tsx:62-70 | toggling an absent chain on and then off restores a non-empty selection exactly |
| Dashboard.SelectionNeverEmpty | app/page.tsx:62-70 | no sequence of toggles empties a non-empty selection |
| Dashboard.DefaultSelectionNeverEmpty | app/page.tsx:13-18 | starting from the default chains, the selection is never empty |
| Dashboard.SearchTerm | app/page.tsx:72-74 | the submitted term is the trimmed input, or `top` when the input is blank, so it is never empty |
| Dashboard.SearchTermIdempotent | app/page.tsx:73 | submitting the resulting term again gives the same term |
| Dashboard.FindByAddress | app/page.tsx:55 | `find` yields a pair exactly when some pair of the list has the address, and what it yields is the first pair of the list with that address |
| Dashboard.Reconcile | app/page.tsx:48-60 | an empty list never changes the selection; with a non-empty list, no selection or an address not in the list selects the first pair, and a listed selection is kept |
| Dashboard.ReconcileIdempotent | app/page.tsx:48-60 | running the effect again after it has run changes nothing, so the effect settles after one update |
| Dashboard.SelectedAddress | app/page.tsx:145 | the selected pair's address, or none when nothing is selected |
| Dashboard.ReconciledRowHighlighted | app/page.tsx:48-60 | after the effect, a non-empty table highlights at least one row |
| PairTable.ActivityChip | components/pair-table.tsx:23-36 | `Institucional` exactly when 24h volume exceeds 5,000,000; `Caliente` exactly when it does not and 24h transactions exceed 1500; no chip otherwise, with absent figures as 0 |
| PairTable.ChipMonotone | components/pair-table.tsx:27-33 | more volume and more transactions never demote a pair's chip |
| PairTable.ChipBoundaries | components/pair-table.tsx:24-35 | volume exactly 5,000,000 with exactly 1500 transactions gets no chip, and a pair with neither figure gets no chip |
| PairTable.Truthy | components/pair-table.tsx:64-65 | absent and zero values become null; any other value is kept as is |
| PairTable.ChangeTone | components/pair-table.tsx:121 | success exactly for a positive change, danger exactly for a negative one, neutral for zero or null |
| PairTable.ToneMirror | components/pair-table.tsx:121 | negating a change swaps success and danger and keeps neutral |
| PairTable.ToneIgnoresCoercion | components/pair-table.tsx:65 | nulling a zero change does not change its tone |
| PairTable.RowTone | components/pair-table.tsx:65 | a row's 24h change cell is success, danger or neutral by the sign of the raw 24h change, neutral when absent |
| PairTable.IsSelected | components/pair-table.tsx:67 | a row is highlighted when the selected address equals its pair address; no selection highlights nothing |
| PairTable.AtMostOneSelected | components/pair-table.tsx:67 | when no two pairs share an address, at most one row is highlighted |
| PairDetail.LastPoints | components/pair-detail.tsx:35 | `slice(-8)` is the suffix of the series of length min(8, n) |
| PairDetail.LatestVolume | components/pair-detail.tsx:33-36 | 0 for an absent or empty series; for at most eight points, the sum of all their volumes |
| PairDetail.LatestVolumeSplit | components/pair-detail.tsx:35 | the whole series volume is the volume before the window plus the window's volume |
| PairDetail.LatestVolumeBounds | components/pair-detail.tsx:35 | with non-negative volumes the window volume lies between 0 and the whole series volume |
| PairDetail.LatestVolumeSlides | components/pair-detail.tsx:35 | appending a point to a series of eight or more adds its volume and drops the oldest windowed point's |
| PairDetail.LatestPoint | components/pair-detail.tsx:32 | absent exactly when the series is absent or empty, else a point of the series |
| PairDetail.LatestPointAppend | components/pair-detail.tsx:32 | the point appended last is the latest point |
| PairDetail.DetailFigures | components/pair-detail.tsx:46-49 | price and each change are null exactly when absent or zero, and otherwise equal the pair's figure |
| PairDetail.DetailTones | components/pair-detail.tsx:107-119 | each of the 1h, 6h and 24h cells is success exactly for a positive change, danger exactly for a negative one, and neutral when absent or zero |
| PairDetail.DetailAgreesWithTable | components/pair-detail.tsx:117-119 | the panel puts the 24h change in the same tone category (success, danger or neutral) as the table row |

## Left out

- DetailAgreesWithTable: the neutral shade differs, `text-slate-300` in the table
  and `text-slate-200` in the panel; the model maps both to one `Neutral`
  tone and does not tell the two shades apart, since CSS classes are
  rendering detail.
- The time-series route and its synthetic fallback
  (`app/api/pairs/[chainId]/[pairAddress]/timeseries/route.ts`) and the
  client fetcher in `lib/api.ts`. They depend on the network, the clock and
  `Math.random`, and `lib/api.ts` is not part of this model. The series
  reaches the model as a parameter.
- The HTTP fetch, `NextResponse` handling, the `Array.isArray(data?.pairs)`
  fallback and SWR fetching and caching, including the sorted cache key. This
  is I/O and framework behaviour. The route's input is the decoded pair list.
- The `Number(...)` parsing of `minLiquidity` and `minVolume` and of the
  threshold inputs, including NaN. The thresholds reach the model as
  already-parsed numbers.
- `null` entries in the provider's pair array (the `pair?.` guard). Each
  pair is modelled as a record.
- Unicode case mapping: `Text.Upper` and `Text.Lower` map only the ASCII
  letters and leave every other character unchanged.
- Floating-point rounding: sums and the average use exact `real` arithmetic.
- The provider sends `priceUsd` as text; the model takes it as a number, so
  `Number(...)` is the identity.
- Formatting (`lib/format`, `toLocaleString`), dayjs relative time and
  URL-hostname parsing. These are foreign library behaviour.
- The JSX and chart rendering, `components/search-filters.tsx`,
  `components/header.tsx`, `app/layout.tsx` and the configuration files.
  They hold no logic of the core.
