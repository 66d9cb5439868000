/**
 * The top-level entry point: run both providers, deduplicate, enrich, sort by
 * market cap, and serve the result from a single snapshot cache for five
 * minutes. The source reads the clock several times: to test the cache, in
 * the filters' age checks, in the pair transform's creation-time fallback,
 * for the elapsed-time log and to stamp the new snapshot. Here one reading,
 * `now`, serves the cache test, the filters and the transforms, and a second,
 * `finishedAt`, stamps the snapshot. Everything the network answers during a
 * run is `SourceData`.
 */
module Pipeline {
  import opened Wrappers
  import opened Types
  import opened Constants
  import opened Gecko
  import opened DexScreener
  import opened Dedup
  import opened Enrich
  import opened Sorting
  import opened Tiers

  /** The provider answers one pipeline run consumes. */
  datatype SourceData = SourceData(
    gecko: GeckoResponses,
    dexScreenerPairs: seq<DexScreenerPair>,
    lookup: TokenLookup)

  /** GeckoTerminal tokens followed by the accepted DexScreener pairs' tokens. */
  function CombinedTokens(src: SourceData, now: int): (r: seq<Token>)
    ensures forall t :: t in r ==> MeetsThresholds(t)
  {
    FetchGeckoSequential(src.gecko, now) + GraduatedTokensOfPairs(src.dexScreenerPairs, now)
  }

  /**
   * Deduplicated and enriched, before the final sort. Enrichment only
   * rewrites images and names, so the list keeps the deduplicated list's
   * length, distinct addresses and market-cap band.
   */
  function EnrichedTokens(src: SourceData, now: int): (r: seq<Token>)
    ensures |r| == |DeduplicateTokens(CombinedTokens(src, now))|
    ensures forall i :: 0 <= i < |r| ==> r[i].address == DeduplicateTokens(CombinedTokens(src, now))[i].address
    ensures DistinctAddresses(r)
    ensures forall t :: t in r ==> MeetsThresholds(t)
  {
    var combined := CombinedTokens(src, now);
    var unique := DeduplicateTokens(combined);
    DeduplicatedMeetThresholds(combined);
    EnrichmentKeepsShape(unique, src.lookup);
    EnrichWithDexScreener(unique, src.lookup)
  }

  /** Enrichment keeps every address in place and every amount, so distinctness and the thresholds survive it. */
  lemma EnrichmentKeepsShape(ts: seq<Token>, lookup: TokenLookup)
    requires DistinctAddresses(ts)
    requires forall t :: t in ts ==> MeetsThresholds(t)
    ensures forall i :: 0 <= i < |ts| ==> EnrichWithDexScreener(ts, lookup)[i].address == ts[i].address
    ensures DistinctAddresses(EnrichWithDexScreener(ts, lookup))
    ensures forall t :: t in EnrichWithDexScreener(ts, lookup) ==> MeetsThresholds(t)
  {
    var r := EnrichWithDexScreener(ts, lookup);
    forall i | 0 <= i < |ts|
      ensures r[i].address == ts[i].address && r[i].marketCap == ts[i].marketCap
      ensures r[i].liquidity == ts[i].liquidity
    {
      assert SameExceptMetadata(ts[i], r[i]);
    }
    forall t | t in r
      ensures MeetsThresholds(t)
    {
      var i :| 0 <= i < |r| && r[i] == t;
      assert ts[i] in ts;
    }
  }

  /** Merged entries keep the thresholds every contributing token met. */
  lemma DeduplicatedMeetThresholds(ts: seq<Token>)
    requires forall t :: t in ts ==> MeetsThresholds(t)
    ensures forall e :: e in DeduplicateTokens(ts) ==> MeetsThresholds(e)
  {
    var r := DeduplicateTokens(ts);
    forall e | e in r
      ensures MeetsThresholds(e)
    {
      var i :| 0 <= i < |r| && r[i] == e;
      DeduplicatedEntry(ts, i);
      var occ := Occurrences(ts, e.address);
      var k :| 0 <= k < |occ| && MarketCaps(occ)[k] == e.marketCap;
      assert occ[k] in ts;
      assert occ[0] in ts;
    }
  }

  /** A token that occurs at two positions of `r` is counted at least twice. */
  lemma CountedTwice(r: seq<Token>, i: nat, j: nat)
    requires i < j < |r| && r[i] == r[j]
    ensures multiset(r)[r[i]] >= 2
  {
    assert r == r[..j] + r[j..];
    assert r[i] in r[..j];
    assert r[j] == r[j..][0];
  }

  /** In a list with distinct addresses every token is counted once. */
  lemma CountedOnce(s: seq<Token>, p: nat)
    requires DistinctAddresses(s) && p < |s|
    ensures multiset(s)[s[p]] == 1
  {
    assert s == s[..p] + [s[p]] + s[p + 1..];
    assert s[p] !in s[..p];
    assert s[p] !in s[p + 1..];
  }

  /** A rearrangement of a list with distinct addresses still has distinct addresses. */
  lemma PermutationKeepsDistinct(s: seq<Token>, r: seq<Token>)
    requires DistinctAddresses(s) && multiset(r) == multiset(s)
    ensures DistinctAddresses(r)
  {
    forall i, j | 0 <= i < j < |r|
      ensures r[i].address != r[j].address
    {
      assert r[i] in multiset(s) && r[j] in multiset(s);
      var p :| 0 <= p < |s| && s[p] == r[i];
      var q :| 0 <= q < |s| && s[q] == r[j];
      if p == q {
        CountedTwice(r, i, j);
        CountedOnce(s, p);
      }
    }
  }

  /** Membership depends only on the multiset. */
  lemma SameMultisetSameMembers(s: seq<Token>, r: seq<Token>)
    requires multiset(r) == multiset(s)
    ensures forall t :: t in r <==> t in s
  {
    assert forall t :: t in r <==> t in multiset(r);
    assert forall t :: t in s <==> t in multiset(s);
  }

  /**
   * One uncached run: the enriched tokens sorted by market cap, highest
   * first, one per address, each with a market cap in the graduated band.
   */
  function RunPipeline(src: SourceData, now: int): (r: seq<Token>)
    ensures SortedByMarketCapDesc(r)
    ensures multiset(r) == multiset(EnrichedTokens(src, now))
    ensures DistinctAddresses(r)
    ensures forall t :: t in r ==> MeetsThresholds(t)
  {
    var enriched := EnrichedTokens(src, now);
    var sorted := SortByMarketCapDesc(enriched);
    PermutationKeepsDistinct(enriched, sorted);
    SameMultisetSameMembers(enriched, sorted);
    sorted
  }

  /** Every token the pipeline returns falls in exactly one market-cap tier. */
  lemma PipelineTokensHaveOneTier(src: SourceData, now: int)
    ensures forall t :: t in RunPipeline(src, now) ==> GetTierForMarketCap(t.marketCap).Some?
    ensures forall t, u :: t in RunPipeline(src, now) && u in MARKET_CAP_TIERS && InTier(u, t.marketCap)
              ==> u == GetTierForMarketCap(t.marketCap).value
  {
    forall t | t in RunPipeline(src, now)
      ensures GetTierForMarketCap(t.marketCap).Some?
      ensures forall u :: u in MARKET_CAP_TIERS && InTier(u, t.marketCap) ==> u == GetTierForMarketCap(t.marketCap).value
    {
      GraduatedCapHasOneTier(t.marketCap);
    }
  }

  // ---------------------------------------------------------------------
  // Snapshot cache
  // ---------------------------------------------------------------------

  const CACHE_TTL_MS: int := 5 * 60 * 1000

  /** The module-level `cachedTokens` (null until the first run) and `cacheTimestamp`. */
  datatype Cache = Cache(tokens: Option<seq<Token>>, timestamp: int)

  const INITIAL_CACHE: Cache := Cache(None, 0)

  /** The tokens returned, the cache afterwards, and whether the pipeline ran. */
  datatype Snapshot = Snapshot(tokens: seq<Token>, cache: Cache, ranPipeline: bool)

  /** A snapshot exists and is younger than the TTL. An empty snapshot still counts. */
  predicate IsFresh(c: Cache, now: int) {
    c.tokens.Some? && now - c.timestamp < CACHE_TTL_MS
  }

  /**
   * A fresh snapshot is returned unchanged without running anything;
   * otherwise the pipeline runs and its sorted result replaces the snapshot,
   * stamped with the time the run finished.
   */
  function FetchAllGraduatedTokens(c: Cache, now: int, src: SourceData, finishedAt: int): (s: Snapshot)
    ensures IsFresh(c, now) ==> s == Snapshot(c.tokens.value, c, false)
    ensures !IsFresh(c, now) ==> s.ranPipeline && s.cache == Cache(Some(s.tokens), finishedAt)
    ensures !IsFresh(c, now) ==>
              && SortedByMarketCapDesc(s.tokens)
              && DistinctAddresses(s.tokens)
              && multiset(s.tokens) == multiset(EnrichedTokens(src, now))
  {
    if IsFresh(c, now) then Snapshot(c.tokens.value, c, false)
    else
      var tokens := RunPipeline(src, now);
      Snapshot(tokens, Cache(Some(tokens), finishedAt), true)
  }

  /** The first call always runs the pipeline. */
  lemma ColdCacheRuns(now: int, src: SourceData, finishedAt: int)
    ensures FetchAllGraduatedTokens(INITIAL_CACHE, now, src, finishedAt).ranPipeline
  {
  }

  /**
   * A second call within the TTL of a run serves that run's result and runs
   * nothing, whatever the providers would now answer.
   */
  lemma SecondCallWithinTtlIsServedFromCache(c: Cache, now1: int, src1: SourceData, done1: int,
                                             now2: int, src2: SourceData, done2: int)
    requires !IsFresh(c, now1)
    requires now2 - done1 < CACHE_TTL_MS
    ensures var s1 := FetchAllGraduatedTokens(c, now1, src1, done1);
            var s2 := FetchAllGraduatedTokens(s1.cache, now2, src2, done2);
            s1.ranPipeline && !s2.ranPipeline && s2.tokens == s1.tokens && s2.cache == s1.cache
  {
  }

  /** Once the TTL has passed, the next call runs the pipeline again. */
  lemma CallAfterTtlRunsAgain(c: Cache, now1: int, src1: SourceData, done1: int,
                              now2: int, src2: SourceData, done2: int)
    requires !IsFresh(c, now1)
    requires now2 - done1 >= CACHE_TTL_MS
    ensures var s1 := FetchAllGraduatedTokens(c, now1, src1, done1);
            var s2 := FetchAllGraduatedTokens(s1.cache, now2, src2, done2);
            s1.ranPipeline && s2.ranPipeline && s2.cache == Cache(Some(s2.tokens), done2)
  {
  }

  // ---------------------------------------------------------------------
  // Scenario: one address reported twice
  // ---------------------------------------------------------------------

  function SampleToken(marketCap: real, image: Option<string>, pairAddress: string): Token {
    Token("Mint111", "CAT", "CAT", image, marketCap, 20_000.0, None, 0.0012, 3.5, 40_000.0,
          pairAddress, 1_700_000_000_000, BuildDexScreenerUrl(pairAddress), BuildPumpfunUrl("Mint111"))
  }

  /**
   * The same address reported with market caps 1,200,000 (no image) and
   * 900,000 (with an image) merges into one token with market cap 1,200,000
   * and that image, in the "$1M+" tier.
   */
  lemma TwoSourcesMergeScenario()
    ensures var merged := DeduplicateTokens([SampleToken(1_200_000.0, None, "PairA"),
                                             SampleToken(900_000.0, Some("https://img/cat.png"), "PairB")]);
            && |merged| == 1
            && merged[0].marketCap == 1_200_000.0
            && merged[0].imageUrl == Some("https://img/cat.png")
            && merged[0].pairAddress == "PairA"
            && GetTierForMarketCap(merged[0].marketCap) == Some(MARKET_CAP_TIERS[0])
  {
    var a := SampleToken(1_200_000.0, None, "PairA");
    var b := SampleToken(900_000.0, Some("https://img/cat.png"), "PairB");
    assert [a, b][..1] == [a];
    assert [a][..0] == [];
    assert DeduplicateTokens([a]) == [a];
  }
}
