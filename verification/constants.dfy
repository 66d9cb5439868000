/** The static configuration of the pipeline. */
module Constants {
  import opened Types

  /** Market-cap tiers, highest first, as they are displayed. */
  const MARKET_CAP_TIERS: seq<MarketCapTier> := [
    MarketCapTier("tier1", "$1M+", 1_000_000.0, Unbounded,
                  "#00ff88", "bg-tier-1/20", "text-tier-1"),
    MarketCapTier("tier2", "$500K - $1M", 500_000.0, Finite(1_000_000.0),
                  "#10b981", "bg-tier-2/20", "text-tier-2"),
    MarketCapTier("tier3", "$100K - $500K", 100_000.0, Finite(500_000.0),
                  "#fbbf24", "bg-tier-3/20", "text-tier-3"),
    MarketCapTier("tier4", "$50K - $100K", 50_000.0, Finite(100_000.0),
                  "#f97316", "bg-tier-4/20", "text-tier-4")
  ]

  /** DEX ids accepted on the DexScreener path. */
  const GRADUATED_DEX_IDS: seq<string> := ["raydium", "raydium-clmm", "pumpswap"]

  /**
   * The configured list of GeckoTerminal DEX slugs. The GeckoTerminal filter
   * does not read it: it spells out its own inline list.
   */
  const GECKO_GRADUATED_DEXES: seq<string> := ["raydium", "raydium-clmm", "pump-fun-amm", "pumpswap"]

  /** Pages fetched per GeckoTerminal trending and new-pools run. */
  const GECKO_PAGES_TO_FETCH: nat := 10

  const THIRTY_DAYS_MS: int := 30 * 24 * 60 * 60 * 1000

  /** Largest market cap still counted as graduated (the check is `> MAX`, so it is inclusive). */
  const MAX_GRADUATED_MCAP: real := 50_000_000.0

  /** Smallest market cap counted as graduated (a literal in both filters). */
  const MIN_GRADUATED_MCAP: real := 50_000.0

  /** Smallest USD liquidity counted as graduated (a literal in both filters). */
  const MIN_LIQUIDITY_USD: real := 500.0

  /** The market-cap band both eligibility filters accept, bounds included. */
  predicate CapInBand(cap: real) {
    MIN_GRADUATED_MCAP <= cap <= MAX_GRADUATED_MCAP
  }

  /** A token whose market cap and liquidity pass both eligibility filters' thresholds. */
  predicate MeetsThresholds(t: Token) {
    CapInBand(t.marketCap) && t.liquidity >= MIN_LIQUIDITY_USD
  }

  /** Both ends of the band are accepted; anything past them is not. */
  lemma CapBandEdges()
    ensures CapInBand(50_000.0) && CapInBand(50_000_000.0)
    ensures !CapInBand(49_999.99) && !CapInBand(50_000_000.01)
  {
  }

  const DEXSCREENER_URL_PREFIX: string := "https://dexscreener.com/solana/"
  const PUMPFUN_URL_PREFIX: string := "https://pump.fun/"

  /** The DexScreener page of a pair. */
  function BuildDexScreenerUrl(pairAddress: string): (url: string)
    ensures |url| == |DEXSCREENER_URL_PREFIX| + |pairAddress|
    ensures url[..|DEXSCREENER_URL_PREFIX|] == DEXSCREENER_URL_PREFIX
    ensures url[|DEXSCREENER_URL_PREFIX|..] == pairAddress
  {
    DEXSCREENER_URL_PREFIX + pairAddress
  }

  /** The Pump.fun page of a token. */
  function BuildPumpfunUrl(tokenAddress: string): (url: string)
    ensures |url| == |PUMPFUN_URL_PREFIX| + |tokenAddress|
    ensures url[..|PUMPFUN_URL_PREFIX|] == PUMPFUN_URL_PREFIX
    ensures url[|PUMPFUN_URL_PREFIX|..] == tokenAddress
  {
    PUMPFUN_URL_PREFIX + tokenAddress
  }

  /** The pair address a DexScreener link points at (inverse of `BuildDexScreenerUrl`). */
  function DexScreenerUrlPairAddress(url: string): string
    requires |url| >= |DEXSCREENER_URL_PREFIX|
  {
    url[|DEXSCREENER_URL_PREFIX|..]
  }

  /** The token address a Pump.fun link points at (inverse of `BuildPumpfunUrl`). */
  function PumpfunUrlTokenAddress(url: string): string
    requires |url| >= |PUMPFUN_URL_PREFIX|
  {
    url[|PUMPFUN_URL_PREFIX|..]
  }

  lemma DexScreenerUrlRoundTrip(pairAddress: string)
    ensures DexScreenerUrlPairAddress(BuildDexScreenerUrl(pairAddress)) == pairAddress
  {
  }

  lemma PumpfunUrlRoundTrip(tokenAddress: string)
    ensures PumpfunUrlTokenAddress(BuildPumpfunUrl(tokenAddress)) == tokenAddress
  {
  }

  /** Distinct pairs get distinct DexScreener links, and distinct tokens distinct Pump.fun links. */
  lemma UrlBuildersInjective(a: string, b: string)
    ensures BuildDexScreenerUrl(a) == BuildDexScreenerUrl(b) ==> a == b
    ensures BuildPumpfunUrl(a) == BuildPumpfunUrl(b) ==> a == b
  {
    DexScreenerUrlRoundTrip(a);
    DexScreenerUrlRoundTrip(b);
    PumpfunUrlRoundTrip(a);
    PumpfunUrlRoundTrip(b);
  }

  /** `THIRTY_DAYS_MS` and `MAX_GRADUATED_MCAP` have the documented values. */
  lemma ThresholdValues()
    ensures THIRTY_DAYS_MS == 2_592_000_000
    ensures MAX_GRADUATED_MCAP == 50_000_000.0
  {
  }
}
