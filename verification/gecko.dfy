/**
 * The GeckoTerminal adapter: the eligibility filter, the pool-to-token
 * transform, and the paginated query modes. A page fetch is given as its
 * outcome: `None` for a failed request (non-success status or thrown error),
 * `Some(pools)` for the pools of a successful response.
 */
module Gecko {
  import opened Wrappers
  import opened Types
  import opened Constants
  import opened Strings

  /** DEX slugs the GeckoTerminal filter accepts (written inline in the filter). */
  const GECKO_FILTER_DEX_IDS: seq<string> := ["raydium", "raydium-clmm", "pumpswap", "pump-fun-amm"]

  /** GeckoTerminal token ids are "solana_" followed by the token address. */
  const GECKO_TOKEN_ID_PREFIX: string := "solana_"

  /** Separator between base and quote symbol in a pool name ("BONK / SOL"). */
  const POOL_NAME_SEPARATOR: string := " / "

  const UNKNOWN_SYMBOL: string := "???"

  /** The inline list holds the same slugs as `GECKO_GRADUATED_DEXES`. */
  lemma FilterListMatchesConfiguredList()
    ensures forall d :: d in GECKO_FILTER_DEX_IDS <==> d in GECKO_GRADUATED_DEXES
  {
  }

  /**
   * The DexScreener allow-list is a strict subset of the GeckoTerminal one:
   * `pump-fun-amm` is accepted on the GeckoTerminal path only.
   */
  lemma GraduatedDexIdsNarrower()
    ensures forall d :: d in GRADUATED_DEX_IDS ==> d in GECKO_FILTER_DEX_IDS
    ensures "pump-fun-amm" in GECKO_FILTER_DEX_IDS && "pump-fun-amm" !in GRADUATED_DEX_IDS
  {
  }

  /** The token address inside a GeckoTerminal token id: the first "solana_" removed. */
  function ExtractTokenAddress(geckoTokenId: string): (r: string)
    ensures (forall j :: 0 <= j ==> !OccursAt(geckoTokenId, GECKO_TOKEN_ID_PREFIX, j)) ==> r == geckoTokenId
    ensures forall i :: OccursAt(geckoTokenId, GECKO_TOKEN_ID_PREFIX, i)
              && (forall j :: 0 <= j < i ==> !OccursAt(geckoTokenId, GECKO_TOKEN_ID_PREFIX, j))
              ==> r == geckoTokenId[..i] + geckoTokenId[i + |GECKO_TOKEN_ID_PREFIX|..]
  {
    ReplaceFirst(geckoTokenId, GECKO_TOKEN_ID_PREFIX, "")
  }

  /** The address is recovered from the id GeckoTerminal builds from it. */
  lemma ExtractTokenAddressRoundTrip(address: string)
    ensures ExtractTokenAddress(GECKO_TOKEN_ID_PREFIX + address) == address
  {
    ReplaceFirstOfPrefixed(GECKO_TOKEN_ID_PREFIX, address);
  }

  /** The pool's market cap; a null or zero value falls back to the FDV, and a null or zero FDV to 0. */
  function EffectiveMarketCap(a: GeckoAttributes): (r: real)
    ensures TruthyNum(a.marketCapUsd) ==> r == a.marketCapUsd.value
    ensures !TruthyNum(a.marketCapUsd) && TruthyNum(a.fdvUsd) ==> r == a.fdvUsd.value
    ensures !TruthyNum(a.marketCapUsd) && !TruthyNum(a.fdvUsd) ==> r == 0.0
  {
    NumOr(a.marketCapUsd, NumOr(a.fdvUsd, 0.0))
  }

  /** The pool's USD reserve, with a missing value read as 0. */
  function Reserve(a: GeckoAttributes): real {
    a.reserveInUsd.GetOr(0.0)
  }

  /** The pool sits on a graduated DEX, is at most 30 days old, and its market cap and reserve pass the thresholds. */
  function IsGeckoGraduatedPool(pool: GeckoPool, now: int): (b: bool)
    ensures b <==> && pool.relationships.dexId in GECKO_FILTER_DEX_IDS
                   && now - pool.attributes.poolCreatedAt <= THIRTY_DAYS_MS
                   && CapInBand(EffectiveMarketCap(pool.attributes))
                   && Reserve(pool.attributes) >= MIN_LIQUIDITY_USD
  {
    var marketCap := EffectiveMarketCap(pool.attributes);
    if pool.relationships.dexId !in GECKO_FILTER_DEX_IDS then false
    else if now - pool.attributes.poolCreatedAt > THIRTY_DAYS_MS then false
    else if marketCap < 50_000.0 || marketCap > MAX_GRADUATED_MCAP then false
    else if Reserve(pool.attributes) < 500.0 then false
    else true
  }

  /** The symbol read from a pool name: its first " / "-segment, or "???" when that is empty. */
  function PoolSymbol(poolName: string): (r: string)
    ensures r != ""
    ensures (poolName == "" || OccursAt(poolName, POOL_NAME_SEPARATOR, 0)) ==> r == UNKNOWN_SYMBOL
    ensures !(poolName == "" || OccursAt(poolName, POOL_NAME_SEPARATOR, 0)) ==>
              && |r| <= |poolName| && r == poolName[..|r|]
              && (forall j :: 0 <= j < |r| ==> !OccursAt(poolName, POOL_NAME_SEPARATOR, j))
              && (r == poolName || OccursAt(poolName, POOL_NAME_SEPARATOR, |r|))
  {
    var first := FirstSegment(poolName, POOL_NAME_SEPARATOR);
    if first != "" then first else UNKNOWN_SYMBOL
  }

  /** The symbol of "BONK / SOL" is "BONK"; a name that starts with the separator has none. */
  lemma PoolSymbolExamples()
    ensures PoolSymbol("BONK / SOL") == "BONK"
    ensures PoolSymbol(" / SOL") == UNKNOWN_SYMBOL
  {
    var name := "BONK / SOL";
    assert name[0..3] != POOL_NAME_SEPARATOR && name[1..4] != POOL_NAME_SEPARATOR;
    assert name[2..5] != POOL_NAME_SEPARATOR && name[3..6] != POOL_NAME_SEPARATOR;
    assert OccursAt(name, POOL_NAME_SEPARATOR, 4);
    assert OccursAt(" / SOL", POOL_NAME_SEPARATOR, 0);
  }

  /** The canonical token for a GeckoTerminal pool. */
  function GeckoPoolToToken(pool: GeckoPool): (t: Token)
    ensures t.address == ExtractTokenAddress(pool.relationships.baseTokenId)
    ensures t.symbol == PoolSymbol(pool.attributes.name) && t.name == t.symbol
    ensures t.imageUrl == None && t.holderCount == None
    ensures t.marketCap == EffectiveMarketCap(pool.attributes)
    ensures t.liquidity == Reserve(pool.attributes)
    ensures t.priceUsd == (if pool.attributes.baseTokenPriceUsd.Some? then pool.attributes.baseTokenPriceUsd.value else 0.0)
    ensures t.priceChange24h == (if pool.attributes.priceChangeH24.Some? then pool.attributes.priceChangeH24.value else 0.0)
    ensures t.volume24h == (if pool.attributes.volumeH24.Some? then pool.attributes.volumeH24.value else 0.0)
    ensures t.pairAddress == pool.attributes.address
    ensures t.pairCreatedAt == pool.attributes.poolCreatedAt
    ensures t.dexScreenerUrl == BuildDexScreenerUrl(t.pairAddress)
    ensures t.pumpfunUrl == BuildPumpfunUrl(t.address)
  {
    var a := pool.attributes;
    var address := ExtractTokenAddress(pool.relationships.baseTokenId);
    var symbol := PoolSymbol(a.name);
    Token(
      address := address,
      symbol := symbol,
      name := symbol,
      imageUrl := None,
      marketCap := EffectiveMarketCap(a),
      liquidity := Reserve(a),
      holderCount := None,
      priceUsd := a.baseTokenPriceUsd.GetOr(0.0),
      priceChange24h := a.priceChangeH24.GetOr(0.0),
      volume24h := a.volumeH24.GetOr(0.0),
      pairAddress := a.address,
      pairCreatedAt := a.poolCreatedAt,
      dexScreenerUrl := BuildDexScreenerUrl(a.address),
      pumpfunUrl := BuildPumpfunUrl(address))
  }

  /** A token made from an accepted pool meets the market-cap and liquidity thresholds. */
  lemma GraduatedPoolTokenMeetsThresholds(pool: GeckoPool, now: int)
    requires IsGeckoGraduatedPool(pool, now)
    ensures MeetsThresholds(GeckoPoolToToken(pool))
  {
  }

  // ---------------------------------------------------------------------
  // Pagination
  // ---------------------------------------------------------------------

  /** The outcome of one page request. */
  type PageResult = Option<seq<GeckoPool>>

  /** A page that came back successfully and non-empty; anything else ends the mode. */
  predicate PageDelivered(p: PageResult) {
    p.Some? && |p.value| > 0
  }

  /** The tokens of the accepted pools of a page, one per accepted pool, in page order. */
  function GraduatedTokensOfPage(pools: seq<GeckoPool>, now: int): (r: seq<Token>)
    ensures |r| <= |pools|
    ensures forall p :: p in pools && IsGeckoGraduatedPool(p, now) ==> GeckoPoolToToken(p) in r
    ensures forall t :: t in r ==> MeetsThresholds(t)
  {
    if |pools| == 0 then []
    else
      var rest := GraduatedTokensOfPage(pools[1..], now);
      if IsGeckoGraduatedPool(pools[0], now) then
        GraduatedPoolTokenMeetsThresholds(pools[0], now);
        [GeckoPoolToToken(pools[0])] + rest
      else rest
  }

  /**
   * Filtering a page distributes over concatenation: the tokens of `a + b`
   * are those of `a` followed by those of `b`, so they come in pool order.
   */
  lemma {:induction false} GraduatedTokensOfPageAppend(a: seq<GeckoPool>, b: seq<GeckoPool>, now: int)
    ensures GraduatedTokensOfPage(a + b, now) == GraduatedTokensOfPage(a, now) + GraduatedTokensOfPage(b, now)
  {
    if |a| == 0 {
      assert a + b == b;
    } else {
      assert (a + b)[0] == a[0];
      assert (a + b)[1..] == a[1..] + b;
      GraduatedTokensOfPageAppend(a[1..], b, now);
    }
  }

  /** A single pool yields its token exactly when it is accepted. */
  lemma GraduatedTokensOfPageSingleton(p: GeckoPool, now: int)
    ensures GraduatedTokensOfPage([p], now) == if IsGeckoGraduatedPool(p, now) then [GeckoPoolToToken(p)] else []
  {
    assert [p][1..] == [];
  }

  /** The graduated tokens of one page outcome; a failed or empty page has none. */
  function PageTokens(p: PageResult, now: int): seq<Token> {
    if PageDelivered(p) then GraduatedTokensOfPage(p.value, now) else []
  }

  /** Every token of a page comes from an accepted pool of that page. */
  lemma {:induction false} GraduatedTokensOfPageSound(pools: seq<GeckoPool>, now: int, t: Token)
    requires t in GraduatedTokensOfPage(pools, now)
    ensures exists p :: p in pools && IsGeckoGraduatedPool(p, now) && t == GeckoPoolToToken(p)
  {
    if t != GeckoPoolToToken(pools[0]) || !IsGeckoGraduatedPool(pools[0], now) {
      GraduatedTokensOfPageSound(pools[1..], now, t);
      var p :| p in pools[1..] && IsGeckoGraduatedPool(p, now) && t == GeckoPoolToToken(p);
      assert p in pools;
    }
  }

  /**
   * One query mode: pages 1..maxPages are requested in order and the loop
   * stops at the first page that failed or came back empty. Pages past the
   * end of `pages` count as failed.
   */
  function FetchPages(pages: seq<PageResult>, maxPages: nat, now: int): (r: seq<Token>)
    ensures forall t :: t in r ==> MeetsThresholds(t)
    decreases maxPages
  {
    if maxPages == 0 || |pages| == 0 || !PageDelivered(pages[0]) then []
    else PageTokens(pages[0], now) + FetchPages(pages[1..], maxPages - 1, now)
  }

  /** How many leading pages a mode consumes: all delivered, capped by `maxPages`. */
  function PagesUsed(pages: seq<PageResult>, maxPages: nat): (k: nat)
    ensures k <= maxPages && k <= |pages|
    ensures forall i :: 0 <= i < k ==> PageDelivered(pages[i])
    ensures k < maxPages && k < |pages| ==> !PageDelivered(pages[k])
    decreases maxPages
  {
    if maxPages == 0 || |pages| == 0 || !PageDelivered(pages[0]) then 0
    else 1 + PagesUsed(pages[1..], maxPages - 1)
  }

  /** The graduated tokens of every delivered page, in page order, with no early stop. */
  function ConcatPages(pages: seq<PageResult>, now: int): seq<Token> {
    if |pages| == 0 then []
    else ConcatPages(pages[..|pages| - 1], now) + PageTokens(pages[|pages| - 1], now)
  }

  lemma {:induction false} ConcatPagesCons(p: PageResult, rest: seq<PageResult>, now: int)
    ensures ConcatPages([p] + rest, now) == PageTokens(p, now) + ConcatPages(rest, now)
  {
    var s := [p] + rest;
    if |rest| > 0 {
      assert s[..|s| - 1] == [p] + rest[..|rest| - 1];
      assert s[|s| - 1] == rest[|rest| - 1];
      ConcatPagesCons(p, rest[..|rest| - 1], now);
    } else {
      assert s[..|s| - 1] == [];
    }
  }

  /**
   * A mode returns, in order, the graduated tokens of pages 1..k, where page
   * k+1 is the first that failed or came back empty, and k never exceeds the
   * page cap.
   */
  lemma {:induction false} FetchPagesStopsAtFirstFailure(pages: seq<PageResult>, maxPages: nat, now: int)
    ensures FetchPages(pages, maxPages, now) == ConcatPages(pages[..PagesUsed(pages, maxPages)], now)
    decreases maxPages
  {
    if maxPages == 0 || |pages| == 0 || !PageDelivered(pages[0]) {
      assert pages[..PagesUsed(pages, maxPages)] == [];
    } else {
      FetchPagesStopsAtFirstFailure(pages[1..], maxPages - 1, now);
      FetchPagesStep(pages, maxPages, now);
    }
  }

  /** One delivered page followed by the rest of the mode. */
  lemma FetchPagesStep(pages: seq<PageResult>, maxPages: nat, now: int)
    requires maxPages > 0 && |pages| > 0 && PageDelivered(pages[0])
    requires FetchPages(pages[1..], maxPages - 1, now)
             == ConcatPages(pages[1..][..PagesUsed(pages[1..], maxPages - 1)], now)
    ensures FetchPages(pages, maxPages, now) == ConcatPages(pages[..PagesUsed(pages, maxPages)], now)
  {
    var k' := PagesUsed(pages[1..], maxPages - 1);
    var tail := pages[1..][..k'];
    assert PagesUsed(pages, maxPages) == 1 + k';
    assert pages[..1 + k'] == [pages[0]] + tail;
    calc {
      FetchPages(pages, maxPages, now);
      PageTokens(pages[0], now) + FetchPages(pages[1..], maxPages - 1, now);
      PageTokens(pages[0], now) + ConcatPages(tail, now);
      { ConcatPagesCons(pages[0], tail, now); }
      ConcatPages([pages[0]] + tail, now);
    }
  }

  /** Responses past the page cap are never looked at. */
  lemma {:induction false} FetchPagesIgnoresPagesPastCap(pages: seq<PageResult>, extra: seq<PageResult>, maxPages: nat, now: int)
    requires |pages| >= maxPages
    ensures FetchPages(pages + extra, maxPages, now) == FetchPages(pages, maxPages, now)
    decreases maxPages
  {
    if maxPages > 0 {
      assert (pages + extra)[0] == pages[0];
      assert (pages + extra)[1..] == pages[1..] + extra;
      FetchPagesIgnoresPagesPastCap(pages[1..], extra, maxPages - 1, now);
    }
  }

  /** A failed second page leaves the mode with exactly the tokens of the first page. */
  lemma FailedSecondPageKeepsFirst(pages: seq<PageResult>, maxPages: nat, now: int)
    requires |pages| >= 2 && PageDelivered(pages[0]) && pages[1] == None
    requires maxPages >= 2
    ensures FetchPages(pages, maxPages, now) == GraduatedTokensOfPage(pages[0].value, now)
  {
    assert pages[1..][0] == None;
    assert FetchPages(pages[1..], maxPages - 1, now) == [];
    assert PageTokens(pages[0], now) == GraduatedTokensOfPage(pages[0].value, now);
  }

  // ---------------------------------------------------------------------
  // Query modes
  // ---------------------------------------------------------------------

  /** Page cap per DEX of the Raydium mode. */
  const RAYDIUM_PAGES_PER_DEX: nat := 5

  /** Page cap of the new-pools mode (a literal in the source, equal to `GECKO_PAGES_TO_FETCH`). */
  const NEW_POOLS_PAGES: nat := 10

  /** The page outcomes of every GeckoTerminal request, per query mode. */
  datatype GeckoResponses = GeckoResponses(
    trending: seq<PageResult>,
    raydium: seq<PageResult>,
    raydiumClmm: seq<PageResult>,
    newPools: seq<PageResult>)

  /** The trending mode: the graduated tokens of its leading delivered pages, at most 10. */
  function FetchGeckoTrendingPools(pages: seq<PageResult>, now: int): (r: seq<Token>)
    ensures PagesUsed(pages, GECKO_PAGES_TO_FETCH) <= 10
    ensures r == ConcatPages(pages[..PagesUsed(pages, GECKO_PAGES_TO_FETCH)], now)
  {
    FetchPagesStopsAtFirstFailure(pages, GECKO_PAGES_TO_FETCH, now);
    FetchPages(pages, GECKO_PAGES_TO_FETCH, now)
  }

  /**
   * The Raydium mode: "raydium" then "raydium-clmm", each its own
   * early-stopping run of at most 5 pages, concatenated in that order.
   */
  function FetchGeckoRaydiumPools(raydium: seq<PageResult>, raydiumClmm: seq<PageResult>, now: int): (r: seq<Token>)
    ensures PagesUsed(raydium, RAYDIUM_PAGES_PER_DEX) <= 5 && PagesUsed(raydiumClmm, RAYDIUM_PAGES_PER_DEX) <= 5
    ensures r == ConcatPages(raydium[..PagesUsed(raydium, RAYDIUM_PAGES_PER_DEX)], now)
                 + ConcatPages(raydiumClmm[..PagesUsed(raydiumClmm, RAYDIUM_PAGES_PER_DEX)], now)
  {
    FetchPagesStopsAtFirstFailure(raydium, RAYDIUM_PAGES_PER_DEX, now);
    FetchPagesStopsAtFirstFailure(raydiumClmm, RAYDIUM_PAGES_PER_DEX, now);
    FetchPages(raydium, RAYDIUM_PAGES_PER_DEX, now) + FetchPages(raydiumClmm, RAYDIUM_PAGES_PER_DEX, now)
  }

  /** The new-pools mode: the graduated tokens of its leading delivered pages, at most 10. */
  function FetchGeckoNewPools(pages: seq<PageResult>, now: int): (r: seq<Token>)
    ensures PagesUsed(pages, NEW_POOLS_PAGES) <= 10
    ensures r == ConcatPages(pages[..PagesUsed(pages, NEW_POOLS_PAGES)], now)
  {
    FetchPagesStopsAtFirstFailure(pages, NEW_POOLS_PAGES, now);
    FetchPages(pages, NEW_POOLS_PAGES, now)
  }

  /** Trending, then Raydium, then new pools, concatenated in that order. */
  function FetchGeckoSequential(responses: GeckoResponses, now: int): (r: seq<Token>)
    ensures forall t :: t in r ==> MeetsThresholds(t)
  {
    FetchGeckoTrendingPools(responses.trending, now)
      + FetchGeckoRaydiumPools(responses.raydium, responses.raydiumClmm, now)
      + FetchGeckoNewPools(responses.newPools, now)
  }
}
