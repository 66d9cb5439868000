/** The DexScreener adapter: the eligibility filter and the pair-to-token transform. */
module DexScreener {
  import opened Wrappers
  import opened Types
  import opened Constants
  import opened Gecko

  const SOLANA_CHAIN_ID: string := "solana"

  /**
   * The pair is young enough: a missing or zero `pairCreatedAt` is falsy, so
   * its age is taken as infinite and the pair is too old.
   */
  predicate RecentPair(pair: DexScreenerPair, now: int) {
    && pair.pairCreatedAt.Some?
    && pair.pairCreatedAt.value != 0
    && now - pair.pairCreatedAt.value <= THIRTY_DAYS_MS
  }

  /** The pair's market cap when present and non-zero, else its FDV when present and non-zero, else 0. */
  function PairMarketCap(pair: DexScreenerPair): (r: real)
    ensures TruthyNum(pair.marketCap) ==> r == pair.marketCap.value
    ensures !TruthyNum(pair.marketCap) && TruthyNum(pair.fdv) ==> r == pair.fdv.value
    ensures !TruthyNum(pair.marketCap) && !TruthyNum(pair.fdv) ==> r == 0.0
  {
    NumOr(pair.marketCap, NumOr(pair.fdv, 0.0))
  }

  /** The pair's USD liquidity, with a missing or zero value read as 0. */
  function PairLiquidity(pair: DexScreenerPair): real {
    NumOr(pair.liquidityUsd, 0.0)
  }

  /** A Solana pair on a graduated DEX, at most 30 days old, whose market cap and liquidity pass the thresholds. */
  function IsDexScreenerGraduated(pair: DexScreenerPair, now: int): (b: bool)
    ensures b <==> && pair.chainId == SOLANA_CHAIN_ID
                   && pair.dexId in GRADUATED_DEX_IDS
                   && RecentPair(pair, now)
                   && CapInBand(PairMarketCap(pair))
                   && PairLiquidity(pair) >= MIN_LIQUIDITY_USD
  {
    if pair.chainId != SOLANA_CHAIN_ID then false
    else if pair.dexId !in GRADUATED_DEX_IDS then false
    else if !RecentPair(pair, now) then false
    else
      var marketCap := PairMarketCap(pair);
      if marketCap < 50_000.0 || marketCap > MAX_GRADUATED_MCAP then false
      else if PairLiquidity(pair) < 500.0 then false
      else true
  }

  /**
   * The age test at its edges: a missing or zero creation time is never
   * recent, whatever the clock says; a pair exactly 30 days old still is,
   * and one a millisecond older is not.
   */
  lemma CreationTimeEdges(pair: DexScreenerPair, now: int)
    ensures !RecentPair(pair.(pairCreatedAt := None), now)
    ensures !RecentPair(pair.(pairCreatedAt := Some(0)), now)
    ensures now != THIRTY_DAYS_MS ==> RecentPair(pair.(pairCreatedAt := Some(now - THIRTY_DAYS_MS)), now)
    ensures !RecentPair(pair.(pairCreatedAt := Some(now - THIRTY_DAYS_MS - 1)), now)
  {
  }

  /** Every DEX the DexScreener filter accepts is accepted by the GeckoTerminal filter, but not conversely. */
  lemma DexScreenerVenuesWithinGecko(pair: DexScreenerPair, now: int)
    requires IsDexScreenerGraduated(pair, now)
    ensures pair.dexId in GECKO_FILTER_DEX_IDS
    ensures pair.dexId != "pump-fun-amm"
  {
    GraduatedDexIdsNarrower();
  }

  /** The canonical token for a DexScreener pair. */
  function DexScreenerPairToToken(pair: DexScreenerPair, now: int): (t: Token)
    ensures t.address == pair.baseToken.address
    ensures t.symbol == pair.baseToken.symbol && t.name == pair.baseToken.name
    ensures TruthyStr(pair.imageUrl) ==> t.imageUrl == pair.imageUrl
    ensures !TruthyStr(pair.imageUrl) ==> t.imageUrl == None
    ensures t.holderCount == None
    ensures t.marketCap == PairMarketCap(pair) && t.liquidity == PairLiquidity(pair)
    ensures t.priceUsd == (if TruthyNum(pair.priceUsd) then pair.priceUsd.value else 0.0)
    ensures t.priceChange24h == (if TruthyNum(pair.priceChangeH24) then pair.priceChangeH24.value else 0.0)
    ensures t.volume24h == (if TruthyNum(pair.volumeH24) then pair.volumeH24.value else 0.0)
    ensures t.pairCreatedAt == if pair.pairCreatedAt.Some? && pair.pairCreatedAt.value != 0
                               then pair.pairCreatedAt.value else now
    ensures t.pairAddress == pair.pairAddress
    ensures t.dexScreenerUrl == BuildDexScreenerUrl(t.pairAddress)
    ensures t.pumpfunUrl == BuildPumpfunUrl(t.address)
  {
    Token(
      address := pair.baseToken.address,
      symbol := pair.baseToken.symbol,
      name := pair.baseToken.name,
      imageUrl := StrOr(pair.imageUrl, None),
      marketCap := PairMarketCap(pair),
      liquidity := PairLiquidity(pair),
      holderCount := None,
      priceUsd := NumOr(pair.priceUsd, 0.0),
      priceChange24h := NumOr(pair.priceChangeH24, 0.0),
      volume24h := NumOr(pair.volumeH24, 0.0),
      pairAddress := pair.pairAddress,
      pairCreatedAt := if pair.pairCreatedAt.Some? && pair.pairCreatedAt.value != 0
                       then pair.pairCreatedAt.value else now,
      dexScreenerUrl := BuildDexScreenerUrl(pair.pairAddress),
      pumpfunUrl := BuildPumpfunUrl(pair.baseToken.address))
  }

  /** A token made from an accepted pair meets the thresholds and keeps the pair's own creation time. */
  lemma GraduatedPairTokenMeetsThresholds(pair: DexScreenerPair, now: int)
    requires IsDexScreenerGraduated(pair, now)
    ensures MeetsThresholds(DexScreenerPairToToken(pair, now))
    ensures DexScreenerPairToToken(pair, now).pairCreatedAt == pair.pairCreatedAt.value
  {
  }

  /** The tokens of the accepted pairs, one per accepted pair, in input order. */
  function GraduatedTokensOfPairs(pairs: seq<DexScreenerPair>, now: int): (r: seq<Token>)
    ensures |r| <= |pairs|
    ensures forall p :: p in pairs && IsDexScreenerGraduated(p, now) ==> DexScreenerPairToToken(p, now) in r
    ensures forall t :: t in r ==> MeetsThresholds(t)
  {
    if |pairs| == 0 then []
    else
      var rest := GraduatedTokensOfPairs(pairs[1..], now);
      if IsDexScreenerGraduated(pairs[0], now) then
        GraduatedPairTokenMeetsThresholds(pairs[0], now);
        [DexScreenerPairToToken(pairs[0], now)] + rest
      else rest
  }

  /**
   * Filtering pairs distributes over concatenation: the tokens of `a + b`
   * are those of `a` followed by those of `b`, so they come in input order.
   */
  lemma {:induction false} GraduatedTokensOfPairsAppend(a: seq<DexScreenerPair>, b: seq<DexScreenerPair>, now: int)
    ensures GraduatedTokensOfPairs(a + b, now) == GraduatedTokensOfPairs(a, now) + GraduatedTokensOfPairs(b, now)
  {
    if |a| == 0 {
      assert a + b == b;
    } else {
      assert (a + b)[0] == a[0];
      assert (a + b)[1..] == a[1..] + b;
      GraduatedTokensOfPairsAppend(a[1..], b, now);
    }
  }

  /** A single pair yields its token exactly when it is accepted. */
  lemma GraduatedTokensOfPairsSingleton(p: DexScreenerPair, now: int)
    ensures GraduatedTokensOfPairs([p], now) == if IsDexScreenerGraduated(p, now) then [DexScreenerPairToToken(p, now)] else []
  {
    assert [p][1..] == [];
  }
}
