# Graduated Pump.fun token aggregator — Dafny model

This project models the data pipeline behind the graduated-token dashboard.
The pipeline collects Solana tokens that have left the Pump.fun bonding curve
from two providers:

- GeckoTerminal, through three paginated query modes: trending pools,
  Raydium pools per DEX, and new pools;
- DexScreener pairs.

It keeps only tokens that sit on a graduated DEX, are at most 30 days old,
have a market cap between $50K and $50M and have at least $500 of liquidity.
Tokens reported more than once are merged by address. Tokens without an image
are enriched from DexScreener. The result is sorted by market cap and served
from a five-minute snapshot cache. The display helpers are modelled too: the
market-cap tier table, tier lookup and grouping, relative-time formatting and
truncation.

Every network answer is an input value, and the clock is a parameter:

- a GeckoTerminal page is `Option<seq<GeckoPool>>`, where `None` is a failed
  request;
- the DexScreener pairs are one sequence;
- the enrichment provider is a function from an address batch to an optional
  list of pairs;
- `Date.now()` becomes `now`, plus `finishedAt` for the moment the snapshot is
  stamped.

JS `number` amounts are `real`, timestamps are `int` milliseconds, nullable
fields are `Option`, and an `Infinity` bound is `Bound.Unbounded`. JS `||`
fallbacks are written out: `0`, `null` and `""` are all treated as absent
(`Types.NumOr`, `Types.StrOr`).

Modules follow the source:

| module | models |
|---|---|
| `Wrappers` | `Option` |
| `Strings` | `indexOf`, `split(" / ")[0]`, `replace` with a string pattern, decimal rendering of counts |
| `Types` | the records of `lib/types.ts` and the GeckoTerminal pool record |
| `Constants` | `lib/constants.ts` |
| `Gecko` | the GeckoTerminal filter, transform and query modes |
| `DexScreener` | the DexScreener filter and transform |
| `Dedup` | `deduplicateTokens` and a reference definition of a merged entry |
| `Enrich` | `enrichWithDexScreener` |
| `Sorting` | the descending market-cap sort |
| `Tiers` | `lib/utils.ts` |
| `Pipeline` | `fetchAllGraduatedTokens` and its cache |

Where the documented behaviour and the code disagree, the model follows the
code:

- **The market-cap ceiling is inclusive.** Both filters reject only
  `marketCap > 50_000_000`, so a cap of exactly 50,000,000 passes
  (`Constants.CapInBand`).
- **A `pairCreatedAt` of 0 falls back to the clock.** The DexScreener
  transform uses `pair.pairCreatedAt || Date.now()`, so the fallback also
  applies when the value is present but 0, not only when it is missing
  (`DexScreener.DexScreenerPairToToken`).

## Model

| member | source | states |
|---|---|---|
| Types.NumOr | lib/dexscreener.ts:75-76 | `x \|\| fallback` on an optional amount: a present non-zero value is kept, and null or 0 gives the fallback |
| Types.StrOr | lib/dexscreener.ts:305 | `x \|\| y` on optional strings: a present non-empty string is kept, and null or "" gives `y` |
| Constants.CapBandEdges | lib/dexscreener.ts:77 | the eligible band is closed at both ends: 50,000 and 50,000,000 pass, while 49,999.99 and 50,000,000.01 fail |
| Constants.BuildDexScreenerUrl | lib/constants.ts:91-92 | the URL is the fixed DexScreener Solana prefix followed by exactly the pair address |
| Constants.BuildPumpfunUrl | lib/constants.ts:95-96 | the URL is `https://pump.fun/` followed by exactly the token address |
| Constants.DexScreenerUrlRoundTrip | lib/constants.ts:91-92 | stripping the prefix recovers the pair address, so the URL is an inverse-checked encoding |
| Constants.PumpfunUrlRoundTrip | lib/constants.ts:95-96 | stripping the prefix recovers the token address |
| Constants.UrlBuildersInjective | lib/constants.ts:91-96 | different addresses never share a DexScreener URL or a Pump.fun URL |
| Constants.ThresholdValues | lib/constants.ts:69-72 | thirty days is 2,592,000,000 ms and the cap ceiling is 50,000,000 |
| Strings.IndexOf | lib/dexscreener.ts:56 | the result is the first position where the pattern occurs, or none when it never occurs |
| Strings.FirstSegment | lib/dexscreener.ts:90-91 | the first `split` segment: a prefix of the input with no separator inside it, ending at the first separator or at the end of the input |
| Strings.ReplaceFirst | lib/dexscreener.ts:56 | `replace` with a string pattern: only the first occurrence is cut out, and an input without one is unchanged |
| Strings.ReplaceFirstOfPrefixed | lib/dexscreener.ts:53-57 | removing a pattern from the front of `pattern + rest` gives back `rest` |
| Strings.NatToString | lib/utils.ts:75-77 | a count renders as a non-empty digit string with no leading zero |
| Strings.NatToStringRoundTrip | lib/utils.ts:75-77 | reading the rendered digits back gives the count |
| Strings.NatToStringInjective | lib/utils.ts:75-77 | different counts render differently |
| Gecko.FilterListMatchesConfiguredList | lib/dexscreener.ts:62-67 | the filter's inline DEX list holds the same slugs as `GECKO_GRADUATED_DEXES` (lib/constants.ts:58-63) |
| Gecko.GraduatedDexIdsNarrower | lib/constants.ts:48-52 | every DexScreener DEX id is also on the GeckoTerminal list, but `pump-fun-amm` is on the GeckoTerminal list only |
| Gecko.ExtractTokenAddress | lib/dexscreener.ts:55-57 | the address is the token id with its first `solana_` removed, and an id without `solana_` is returned unchanged |
| Gecko.ExtractTokenAddressRoundTrip | lib/dexscreener.ts:53-57 | for an id of the form `solana_<address>`, the address is recovered |
| Gecko.EffectiveMarketCap | lib/dexscreener.ts:75-76 | the market cap is used when non-zero, otherwise the FDV when non-zero, otherwise 0 |
| Gecko.IsGeckoGraduatedPool | lib/dexscreener.ts:60-84 | a pool is accepted exactly when all of these hold: its DEX is on the inline list; it is at most 30 days old; its effective cap is within [50K, 50M]; its reserve is at least 500 |
| Gecko.PoolSymbol | lib/dexscreener.ts:90-91 | the symbol is the text before the first " / ", or "???" when that text is empty; it is never empty |
| Gecko.PoolSymbolExamples | lib/dexscreener.ts:90-91 | "BONK / SOL" gives "BONK", and " / SOL" gives "???" |
| Gecko.GeckoPoolToToken | lib/dexscreener.ts:87-118 | address from the base-token id; name equal to the symbol; no image and no holder count; cap and liquidity from the fallbacks; price, 24h change and 24h volume read as 0 when missing; both URLs built from the pair address and the token address |
| Gecko.GraduatedPoolTokenMeetsThresholds | lib/dexscreener.ts:77-81 | the token made from an accepted pool has a cap within [50K, 50M] and liquidity of at least 500 |
| Gecko.GraduatedTokensOfPage | lib/dexscreener.ts:135-136 | every accepted pool of a page contributes its token; every token meets the thresholds; there are never more tokens than pools |
| Gecko.GraduatedTokensOfPageAppend | lib/dexscreener.ts:135-136 | filtering `a + b` gives the tokens of `a` followed by those of `b`; with the singleton case this pins the result to one token per accepted pool, in page order |
| Gecko.GraduatedTokensOfPageSingleton | lib/dexscreener.ts:135-136 | a one-pool page yields that pool's token when it is accepted and nothing otherwise |
| Gecko.GraduatedTokensOfPageSound | lib/dexscreener.ts:135-136 | every token of a page comes from an accepted pool on that page |
| Gecko.FetchPages | lib/dexscreener.ts:124-143 | every token a query mode returns meets the thresholds |
| Gecko.PagesUsed | lib/dexscreener.ts:124-133 | the pages consumed are the delivered ones before the first failed or empty page, never more than the cap |
| Gecko.FetchPagesStopsAtFirstFailure | lib/dexscreener.ts:124-143 | a mode returns, in page order, the graduated tokens of exactly the pages it consumed |
| Gecko.FetchPagesIgnoresPagesPastCap | lib/dexscreener.ts:124 | responses beyond the page cap cannot change a mode's result |
| Gecko.FailedSecondPageKeepsFirst | lib/dexscreener.ts:130 | when page 2 fails, the mode returns exactly the graduated tokens of page 1 |
| Gecko.FetchGeckoTrendingPools | lib/dexscreener.ts:121-147 | the trending mode returns the graduated tokens of its leading delivered pages, in page order, never more than 10 pages |
| Gecko.FetchGeckoRaydiumPools | lib/dexscreener.ts:150-182 | the Raydium mode returns the leading delivered pages of "raydium" and then of "raydium-clmm", at most 5 pages each |
| Gecko.FetchGeckoNewPools | lib/dexscreener.ts:185-212 | the new-pools mode returns the graduated tokens of its leading delivered pages, in page order, never more than 10 pages |
| Gecko.FetchGeckoSequential | lib/dexscreener.ts:463-480 | every token collected across the three modes meets the thresholds |
| DexScreener.PairMarketCap | lib/dexscreener.ts:290 | the market cap is used when non-zero, otherwise the FDV when non-zero, otherwise 0 |
| DexScreener.IsDexScreenerGraduated | lib/dexscreener.ts:281-297 | a pair is accepted exactly when all of these hold: it is on Solana; its DEX is in `GRADUATED_DEX_IDS`; its creation time is present, non-zero and at most 30 days old; its cap is within [50K, 50M]; its liquidity is at least 500 |
| DexScreener.CreationTimeEdges | lib/dexscreener.ts:285-288 | a missing or zero creation time is never recent, whatever the clock; a pair exactly 30 days old is recent, and one a millisecond older is not |
| DexScreener.DexScreenerVenuesWithinGecko | lib/dexscreener.ts:283 | an accepted pair's DEX is also accepted by the GeckoTerminal filter, and is never `pump-fun-amm` |
| DexScreener.DexScreenerPairToToken | lib/dexscreener.ts:300-317 | identity fields come from the base token; an empty or missing image becomes null; price, 24h change and 24h volume read as 0 when missing or 0; the creation time falls back to `now` when missing or 0; both URLs are built from the pair address and the token address |
| DexScreener.GraduatedPairTokenMeetsThresholds | lib/dexscreener.ts:285-294 | the token made from an accepted pair meets the thresholds and keeps the pair's own creation time |
| DexScreener.GraduatedTokensOfPairs | lib/dexscreener.ts:431-433 | every accepted pair contributes its token, and every token meets the thresholds |
| DexScreener.GraduatedTokensOfPairsAppend | lib/dexscreener.ts:431-433 | filtering `a + b` gives the tokens of `a` followed by those of `b`, so tokens come one per accepted pair, in input order |
| DexScreener.GraduatedTokensOfPairsSingleton | lib/dexscreener.ts:431-433 | a single pair yields its token when it is accepted and nothing otherwise |
| Dedup.MergeTokens | lib/dexscreener.ts:389-397 | identity fields stay; an existing image is kept, otherwise the incoming one is taken; the name is kept unless it equals the symbol; the three amounts become the larger of the two; every other field (prices, holder count, links) comes from the existing entry |
| Dedup.InsertToken | lib/dexscreener.ts:383-398 | the addresses stay distinct, the new address joins the set, the length grows only for a new address, and existing positions keep their addresses |
| Dedup.DeduplicateTokens | lib/dexscreener.ts:380-402 | the output addresses are pairwise distinct and form exactly the input's address set |
| Dedup.Occurrences | lib/dexscreener.ts:383-384 | the occurrences of an address are input tokens with that address, and there are some exactly when the address occurs in the input |
| Dedup.MaxOf | lib/dexscreener.ts:394-396 | the maximum is one of the amounts and bounds all of them |
| Dedup.FirstImage | lib/dexscreener.ts:391 | the first present image wins; when none is present, the last occurrence's value is kept |
| Dedup.FirstDistinctName | lib/dexscreener.ts:392-393 | the first name that differs from the symbol wins; when none differs, the name is the symbol |
| Dedup.MergeTokensSnoc | lib/dexscreener.ts:389-397 | merging one more occurrence into the reference entry gives the reference entry of the longer list |
| Dedup.DeduplicateMergesOccurrences | lib/dexscreener.ts:380-402 | each output entry equals the reference merge of all input tokens with its address |
| Dedup.DeduplicateKeepsFirstOccurrenceOrder | lib/dexscreener.ts:401 | entries appear in the order their addresses first occur in the input |
| Dedup.DeduplicateIdempotent | lib/dexscreener.ts:380-402 | input whose addresses are already distinct is returned unchanged |
| Dedup.DeduplicateTwice | lib/dexscreener.ts:380-402 | deduplicating twice gives the same result as deduplicating once |
| Dedup.MergeAmountsAssociative | lib/dexscreener.ts:394-396 | the merged amounts do not depend on how the records are paired or ordered |
| Dedup.DeduplicatedEntry | lib/dexscreener.ts:383-397 | for each entry: the amounts are the maxima over its occurrences; the image is the first present one; the name follows the symbol rule; every other field is the first occurrence's |
| Enrich.NeedsEnrichment | lib/dexscreener.ts:328 | the candidates are exactly the input tokens without an image |
| Enrich.NeedsEnrichmentAppend | lib/dexscreener.ts:328 | selecting from `a + b` gives the candidates of `a` followed by those of `b`, so candidates keep input order, which decides which 150 are queried |
| Enrich.NeedsEnrichmentSingleton | lib/dexscreener.ts:328 | a single token is a candidate exactly when it has no image |
| Enrich.EnrichmentBatchesBounded | lib/dexscreener.ts:333-337 | the batches cover the first min(#candidates, 150) addresses in order, in at most 5 batches of 1 to 30 addresses |
| Enrich.EnrichmentMap | lib/dexscreener.ts:346-353 | records exist exactly for the addresses of returned pairs that carry an image, and every recorded image is non-empty |
| Enrich.EnrichmentMapLastWins | lib/dexscreener.ts:348-351 | an address's record comes from the last returned pair with an image for it |
| Enrich.EnrichToken | lib/dexscreener.ts:363-371 | a token without a record is unchanged; one with a record takes the record's image and name, each only when non-empty, and keeps every other field |
| Enrich.ApplyEnrichment | lib/dexscreener.ts:362-372 | length and every field except image and name are kept; a token without a record is unchanged; a record's image is taken, and its name is taken unless empty |
| Enrich.EnrichmentRecords | lib/dexscreener.ts:332-359 | every record built from the lookups carries a non-empty image |
| Enrich.EnrichWithDexScreener | lib/dexscreener.ts:324-373 | length, order, addresses and amounts are kept; an image is never lost; a token with a record gets its image, and its name unless the record's name is empty; with no candidates the input is returned |
| Sorting.InsertByMarketCap | lib/dexscreener.ts:448 | inserting adds exactly the one token |
| Sorting.InsertByMarketCapSorted | lib/dexscreener.ts:448 | inserting into a descending list keeps it descending |
| Sorting.SortByMarketCapDesc | lib/dexscreener.ts:448 | the result is a permutation of the input, ordered by market cap from highest to lowest |
| Tiers.FindTierIndex | lib/utils.ts:30-36 | `find`: the first tier whose half-open interval holds the cap, or none when no tier does |
| Tiers.GetTierForMarketCap | lib/utils.ts:30-36 | the tier found is in the table and holds the cap; null means no tier holds it |
| Tiers.TierTableShape | lib/constants.ts:4-41 | the table is contiguous, strictly descending by floor, has distinct ids, is unbounded at the top, and bottoms out at the 50K eligibility floor |
| Tiers.WellFormedTableDisjoint | lib/constants.ts:4-41 | in a contiguous descending table, no cap lies in two tiers |
| Tiers.WellFormedTableCovers | lib/utils.ts:30-36 | in such a table, any cap at or above some tier's floor finds a tier |
| Tiers.TierPartition | lib/constants.ts:4-41 | every cap of at least 50K lies in exactly one tier |
| Tiers.GraduatedCapHasOneTier | lib/constants.ts:35-36 | every cap that passes the eligibility band has exactly one tier |
| Tiers.TierBoundaries | lib/utils.ts:30-36 | 999,999 maps to "$500K - $1M"; 1,000,000 maps to "$1M+"; 50,000 maps to "$50K - $100K"; 49,999 maps to none |
| Tiers.TokensInTier | lib/utils.ts:50-55 | a group counts each token as often as the input does if the token belongs to the tier, and otherwise not at all |
| Tiers.GroupBy | lib/utils.ts:44-60 | one key per tier id; each group sorted descending and holding exactly the tier's tokens |
| Tiers.GroupTokensByTier | lib/utils.ts:39-63 | every tier id has a key even when empty; each group is sorted descending and is a permutation of the input tokens that map to that tier |
| Tiers.GroupMembership | lib/utils.ts:50-55 | an input token is in a group exactly when its cap's tier has that id |
| Tiers.GraduatedTokenInOneGroup | lib/utils.ts:50-55 | an eligible token lands in exactly the group of its tier |
| Tiers.FormatRelativeTime | lib/utils.ts:66-78 | "just now" exactly when under a minute has passed, including negative differences; otherwise whole minutes below an hour, whole hours below a day, and whole days after that |
| Tiers.SlicePrefix | lib/utils.ts:88 | `slice(0, end)`: a negative end counts back from the end, and an end past the length is clamped |
| Tiers.Truncate | lib/utils.ts:86-89 | text that fits is unchanged; for a limit of 3 or more, longer text becomes exactly the limit long and ends in "..." |
| Tiers.TruncateSmallLimit | lib/utils.ts:86-89 | for a limit below 3, the result can be longer than the limit: "abcdef" at limit 2 becomes "abcde..." |
| Pipeline.CombinedTokens | lib/dexscreener.ts:425-438 | every token from either provider meets the thresholds |
| Pipeline.DeduplicatedMeetThresholds | lib/dexscreener.ts:441 | merged entries still meet the thresholds, because each amount is one of the occurrences' amounts |
| Pipeline.PermutationKeepsDistinct | lib/dexscreener.ts:448 | reordering a list with distinct addresses keeps them distinct |
| Pipeline.EnrichedTokens | lib/dexscreener.ts:438-445 | the enriched list has the deduplicated list's length and addresses in place; the addresses are distinct, and every token meets the thresholds |
| Pipeline.EnrichmentKeepsShape | lib/dexscreener.ts:362-372 | enrichment keeps each address in place, so distinct addresses and the thresholds survive it |
| Pipeline.RunPipeline | lib/dexscreener.ts:425-448 | one run is sorted by cap descending, is a permutation of the enriched list, has one token per address, and every token is eligible |
| Pipeline.PipelineTokensHaveOneTier | lib/dexscreener.ts:448 | every token the pipeline returns falls in exactly one tier |
| Pipeline.FetchAllGraduatedTokens | lib/dexscreener.ts:408-459 | a fresh snapshot is served unchanged and nothing runs; otherwise the pipeline's sorted, distinct permutation is served and stored with the finishing time |
| Pipeline.ColdCacheRuns | lib/dexscreener.ts:408-409 | the first call always runs the pipeline |
| Pipeline.SecondCallWithinTtlIsServedFromCache | lib/dexscreener.ts:415-418 | a call within five minutes of a run serves that run's tokens, whatever the providers now answer |
| Pipeline.CallAfterTtlRunsAgain | lib/dexscreener.ts:455-457 | once five minutes have passed, the next call runs again and restamps the snapshot |
| Pipeline.TwoSourcesMergeScenario | lib/dexscreener.ts:389-397 | an address reported at 1.2M without an image and at 900K with one merges into one 1.2M token with that image, in the "$1M+" tier |

## Left out

- Network I/O is left out: `fetch`, response status, `.json()`, the boost fan-out and the keyword searches. Their results are inputs: page outcomes, the pair list and the batch lookup.
- Page outcomes are collapsed: a non-success status, a thrown error and an empty page all end a mode the same way. A page past the end of the given responses also counts as a failure.
- Rate-limit delays and `Promise.all` are left out. They do not affect what the pipeline returns.
- Logging is left out.
- The clock is read several times in the source. The model uses one `now` per run for the filters, the transforms and the cache test, plus a separate `finishedAt` for the snapshot stamp.
- Parsing is left out. `parseFloat` and `new Date(...).getTime()` are replaced by parsed values. NaN, which would slip through the `< 500` reserve check, is not modelled.
- `formatCurrency`, `formatPercent` and `formatNumber` are left out because they are floating-point formatting.
- React components, the HTTP route handler and the build configuration are left out.
- DexScreener pair fields that the core never reads are left out: `txns`, `liquidity.base`/`quote`, `info.header`, `info.openGraph`, `websites` and `socials`.
- Sorting.SortByMarketCapDesc: proved to give a descending permutation. It is not proved to be stable; JS's `Array.prototype.sort` is stable.
- Tiers.Truncate: for limits below 3 the contract states only that the result ends in "...". `Tiers.TruncateSmallLimit` pins down one such case.
- Tiers.Truncate: lengths count Unicode scalar values, not JavaScript's UTF-16 code units. Text with characters outside the Basic Multilingual Plane, such as emoji, can therefore be cut at a different place, or left whole where JavaScript would cut it. Dafny strings hold scalar values, and no caller in the core uses `truncate`.
- Tiers.SlicePrefix: slice ends count Unicode scalar values, not UTF-16 code units, so the model never splits a surrogate pair as JavaScript's `slice` can.
- Dedup.DeduplicateTokens: the merge is written as a left fold over an ordered list of entries rather than a hash map. The resulting order is the map's insertion order.
