/**
 * The records the pipeline passes around: the canonical token, the tier
 * configuration entry, and the two providers' raw records. JavaScript numbers
 * are `real`s, timestamps are whole milliseconds, and nullable or optional
 * fields are `Option`s. Provider strings that the source runs through
 * `parseFloat` or `Date` arrive here already parsed.
 */
module Types {
  import opened Wrappers

  /** One graduated token after processing. */
  datatype Token = Token(
    address: string,
    symbol: string,
    name: string,
    imageUrl: Option<string>,
    marketCap: real,
    liquidity: real,
    holderCount: Option<int>,
    priceUsd: real,
    priceChange24h: real,
    volume24h: real,
    pairAddress: string,
    pairCreatedAt: int,
    dexScreenerUrl: string,
    pumpfunUrl: string)

  /** An upper market-cap bound; `Unbounded` stands for JavaScript's `Infinity`. */
  datatype Bound = Finite(cap: real) | Unbounded

  /** One market-cap band `[minCap, maxCap)` together with its display settings. */
  datatype MarketCapTier = MarketCapTier(
    id: string,
    displayLabel: string,  // the source's `label` (a reserved word here)
    minCap: real,
    maxCap: Bound,
    color: string,
    bgClass: string,
    textClass: string)

  /** The `baseToken` / `quoteToken` object of a DexScreener pair. */
  datatype PairToken = PairToken(address: string, name: string, symbol: string)

  /**
   * A DexScreener pair. Nested optional objects are flattened: `liquidityUsd`
   * is `liquidity?.usd`, `volumeH24` is `volume?.h24`, `priceChangeH24` is
   * `priceChange?.h24`, `imageUrl` is `info?.imageUrl`. `priceUsd` is the
   * value `parseFloat` reads from the API string, `None` when it reads NaN.
   */
  datatype DexScreenerPair = DexScreenerPair(
    chainId: string,
    dexId: string,
    url: string,
    pairAddress: string,
    baseToken: PairToken,
    quoteToken: PairToken,
    priceNative: string,
    priceUsd: Option<real>,
    volumeH24: Option<real>,
    priceChangeH24: Option<real>,
    liquidityUsd: Option<real>,
    fdv: Option<real>,
    marketCap: Option<real>,
    pairCreatedAt: Option<int>,
    imageUrl: Option<string>)

  /**
   * The `attributes` object of a GeckoTerminal pool. The string-valued
   * amounts are given as the number `parseFloat` reads from them, with
   * `None` for a null, missing or empty string (which the source replaces by
   * "0"); `poolCreatedAt` is the parsed creation time in milliseconds.
   */
  datatype GeckoAttributes = GeckoAttributes(
    baseTokenPriceUsd: Option<real>,
    address: string,
    name: string,
    poolCreatedAt: int,
    fdvUsd: Option<real>,
    marketCapUsd: Option<real>,
    priceChangeH24: Option<real>,
    volumeH24: Option<real>,
    reserveInUsd: Option<real>)

  /** The ids of the `relationships` object of a GeckoTerminal pool. */
  datatype GeckoRelationships = GeckoRelationships(
    baseTokenId: string,
    quoteTokenId: string,
    dexId: string)

  datatype GeckoPool = GeckoPool(
    id: string,
    poolType: string,
    attributes: GeckoAttributes,
    relationships: GeckoRelationships)

  /** JavaScript truthiness of a nullable number: null and 0 are falsy. */
  predicate TruthyNum(x: Option<real>) {
    x.Some? && x.value != 0.0
  }

  /** JavaScript truthiness of a nullable string: null and "" are falsy. */
  predicate TruthyStr(x: Option<string>) {
    x.Some? && x.value != ""
  }

  /** A nullable number, with null and 0 both replaced by the fallback. */
  function NumOr(x: Option<real>, fallback: real): (r: real)
    ensures TruthyNum(x) ==> r == x.value
    ensures !TruthyNum(x) ==> r == fallback
  {
    if TruthyNum(x) then x.value else fallback
  }

  /** A nullable string, with null and the empty string both replaced by `y`. */
  function StrOr(x: Option<string>, y: Option<string>): (r: Option<string>)
    ensures TruthyStr(x) ==> r == x
    ensures !TruthyStr(x) ==> r == y
  {
    if TruthyStr(x) then x else y
  }

  /** A token carries an image exactly when its `imageUrl` is truthy. */
  predicate HasImage(t: Token) {
    TruthyStr(t.imageUrl)
  }

  /** The larger of two amounts (`Math.max`). */
  function Max(a: real, b: real): real {
    if a >= b then a else b
  }
}
