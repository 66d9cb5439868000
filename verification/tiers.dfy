/**
 * Market-cap tier lookup and grouping, and the two small display helpers of
 * the same utility file (relative time, truncation).
 */
module Tiers {
  import opened Wrappers
  import opened Types
  import opened Constants
  import opened Sorting
  import opened Strings

  /** `cap` lies in the band `[minCap, maxCap)` of `t`. */
  predicate InTier(t: MarketCapTier, cap: real) {
    t.minCap <= cap && (t.maxCap.Unbounded? || cap < t.maxCap.cap)
  }

  /** Position of the first tier in `tiers` whose band contains `cap` (`Array.prototype.find`). */
  function FindTierIndex(tiers: seq<MarketCapTier>, cap: real): (r: Option<nat>)
    ensures r.Some? ==> r.value < |tiers| && InTier(tiers[r.value], cap)
    ensures r.Some? ==> forall j :: 0 <= j < r.value ==> !InTier(tiers[j], cap)
    ensures r.None? ==> forall j :: 0 <= j < |tiers| ==> !InTier(tiers[j], cap)
  {
    if |tiers| == 0 then None
    else if InTier(tiers[0], cap) then Some(0)
    else match FindTierIndex(tiers[1..], cap)
      case None => None
      case Some(k) => Some(k + 1)
  }

  /** The tier a market cap belongs to, or `None` (the source's `null`). */
  function GetTierForMarketCap(cap: real): (r: Option<MarketCapTier>)
    ensures r.Some? ==> r.value in MARKET_CAP_TIERS && InTier(r.value, cap)
    ensures r.None? ==> forall t :: t in MARKET_CAP_TIERS ==> !InTier(t, cap)
  {
    match FindTierIndex(MARKET_CAP_TIERS, cap)
    case None => None
    case Some(i) => Some(MARKET_CAP_TIERS[i])
  }

  // ---------------------------------------------------------------------
  // Shape of the tier table
  // ---------------------------------------------------------------------

  /** Each tier's upper bound is the lower bound of the tier listed before it. */
  predicate Contiguous(tiers: seq<MarketCapTier>) {
    forall i :: 0 < i < |tiers| ==> tiers[i].maxCap == Finite(tiers[i - 1].minCap)
  }

  predicate StrictlyDescending(tiers: seq<MarketCapTier>) {
    forall i, j :: 0 <= i < j < |tiers| ==> tiers[j].minCap < tiers[i].minCap
  }

  predicate DistinctIds(tiers: seq<MarketCapTier>) {
    forall i, j :: 0 <= i < j < |tiers| ==> tiers[i].id != tiers[j].id
  }

  /** A table of contiguous, descending bands whose first band is unbounded above. */
  predicate WellFormedTable(tiers: seq<MarketCapTier>) {
    && |tiers| > 0
    && tiers[0].maxCap == Unbounded
    && Contiguous(tiers)
    && StrictlyDescending(tiers)
  }

  /** The shipped table is well formed, has distinct ids, and its floor is the eligibility floor. */
  lemma TierTableShape()
    ensures WellFormedTable(MARKET_CAP_TIERS)
    ensures DistinctIds(MARKET_CAP_TIERS)
    ensures MARKET_CAP_TIERS[|MARKET_CAP_TIERS| - 1].minCap == MIN_GRADUATED_MCAP
  {
  }

  /** In a well-formed table no market cap lies in two bands. */
  lemma WellFormedTableDisjoint(tiers: seq<MarketCapTier>, cap: real, i: nat, j: nat)
    requires WellFormedTable(tiers)
    requires i < j < |tiers|
    ensures !(InTier(tiers[i], cap) && InTier(tiers[j], cap))
  {
    if InTier(tiers[j], cap) {
      assert cap < tiers[j - 1].minCap;
      assert tiers[j - 1].minCap <= tiers[i].minCap;
    }
  }

  /** In a well-formed table every market cap at or above the band of `tiers[i]`'s floor lies in some band. */
  lemma {:induction false} WellFormedTableCovers(tiers: seq<MarketCapTier>, cap: real, i: nat)
    requires WellFormedTable(tiers)
    requires i < |tiers| && tiers[i].minCap <= cap
    ensures FindTierIndex(tiers, cap).Some?
  {
    if i == 0 {
      assert InTier(tiers[0], cap);
    } else if cap < tiers[i - 1].minCap {
      assert InTier(tiers[i], cap);
    } else {
      WellFormedTableCovers(tiers, cap, i - 1);
    }
  }

  /** Every market cap at or above the table's floor lies in exactly one tier. */
  lemma TierPartition(cap: real)
    requires cap >= MIN_GRADUATED_MCAP
    ensures GetTierForMarketCap(cap).Some?
    ensures forall i, j ::
              (0 <= i < |MARKET_CAP_TIERS| && 0 <= j < |MARKET_CAP_TIERS|
               && InTier(MARKET_CAP_TIERS[i], cap) && InTier(MARKET_CAP_TIERS[j], cap)) ==> i == j
  {
    TierTableShape();
    WellFormedTableCovers(MARKET_CAP_TIERS, cap, |MARKET_CAP_TIERS| - 1);
    forall i, j | 0 <= i < |MARKET_CAP_TIERS| && 0 <= j < |MARKET_CAP_TIERS|
        && InTier(MARKET_CAP_TIERS[i], cap) && InTier(MARKET_CAP_TIERS[j], cap)
      ensures i == j
    {
      if i < j {
        WellFormedTableDisjoint(MARKET_CAP_TIERS, cap, i, j);
      } else if j < i {
        WellFormedTableDisjoint(MARKET_CAP_TIERS, cap, j, i);
      }
    }
  }

  /** Every market cap the eligibility filters accept has exactly one tier. */
  lemma GraduatedCapHasOneTier(cap: real)
    requires CapInBand(cap)
    ensures GetTierForMarketCap(cap).Some?
    ensures forall t :: t in MARKET_CAP_TIERS && InTier(t, cap) ==> t == GetTierForMarketCap(cap).value
  {
    TierPartition(cap);
  }

  /** Band edges of the shipped table. */
  lemma TierBoundaries()
    ensures GetTierForMarketCap(999_999.0) == Some(MARKET_CAP_TIERS[1])
    ensures GetTierForMarketCap(1_000_000.0) == Some(MARKET_CAP_TIERS[0])
    ensures GetTierForMarketCap(50_000.0) == Some(MARKET_CAP_TIERS[3])
    ensures GetTierForMarketCap(49_999.0) == None
  {
  }

  // ---------------------------------------------------------------------
  // Grouping
  // ---------------------------------------------------------------------

  /** `t` belongs to the group keyed `id`. */
  predicate BelongsTo(t: Token, id: string) {
    var tier := GetTierForMarketCap(t.marketCap);
    tier.Some? && tier.value.id == id
  }

  /** The tokens pushed onto the group keyed `id`, in input order. */
  function TokensInTier(ts: seq<Token>, id: string): (r: seq<Token>)
    ensures forall t :: multiset(r)[t] == if BelongsTo(t, id) then multiset(ts)[t] else 0
  {
    if |ts| == 0 then []
    else
      var last := ts[|ts| - 1];
      assert ts == ts[..|ts| - 1] + [last];
      TokensInTier(ts[..|ts| - 1], id) + (if BelongsTo(last, id) then [last] else [])
  }

  function TierIds(tiers: seq<MarketCapTier>): set<string> {
    set t | t in tiers :: t.id
  }

  function GroupBy(tiers: seq<MarketCapTier>, ts: seq<Token>): (r: map<string, seq<Token>>)
    ensures r.Keys == TierIds(tiers)
    ensures forall id :: id in r ==> SortedByMarketCapDesc(r[id])
    ensures forall id, t :: id in r ==>
              multiset(r[id])[t] == if BelongsTo(t, id) then multiset(ts)[t] else 0
  {
    if |tiers| == 0 then map[]
    else
      var last := tiers[|tiers| - 1];
      assert tiers == tiers[..|tiers| - 1] + [last];
      GroupBy(tiers[..|tiers| - 1], ts)[last.id := SortByMarketCapDesc(TokensInTier(ts, last.id))]
  }

  /**
   * Tokens grouped by tier id: every tier has a key, each group holds exactly
   * the input tokens (with multiplicity) whose tier carries that id, and each
   * group is ordered by market cap, highest first.
   */
  function GroupTokensByTier(ts: seq<Token>): (r: map<string, seq<Token>>)
    ensures r.Keys == TierIds(MARKET_CAP_TIERS)
    ensures forall id :: id in r ==> SortedByMarketCapDesc(r[id])
    ensures forall id, t :: id in r ==>
              multiset(r[id])[t] == if BelongsTo(t, id) then multiset(ts)[t] else 0
  {
    GroupBy(MARKET_CAP_TIERS, ts)
  }

  /**
   * An input token lands in the group named by its tier and in no other;
   * one without a tier lands in no group.
   */
  lemma GroupMembership(ts: seq<Token>, t: Token, id: string)
    requires t in ts
    requires id in TierIds(MARKET_CAP_TIERS)
    ensures id in GroupTokensByTier(ts)
    ensures t in GroupTokensByTier(ts)[id] <==> BelongsTo(t, id)
  {
    var g := GroupTokensByTier(ts);
    assert multiset(g[id])[t] == if BelongsTo(t, id) then multiset(ts)[t] else 0;
  }

  /** A token whose market cap is eligible lands in exactly one group. */
  lemma GraduatedTokenInOneGroup(ts: seq<Token>, t: Token)
    requires t in ts
    requires CapInBand(t.marketCap)
    ensures GetTierForMarketCap(t.marketCap).Some?
    ensures forall id :: id in GroupTokensByTier(ts) ==>
              (t in GroupTokensByTier(ts)[id] <==> id == GetTierForMarketCap(t.marketCap).value.id)
  {
    GraduatedCapHasOneTier(t.marketCap);
    forall id | id in GroupTokensByTier(ts)
      ensures t in GroupTokensByTier(ts)[id] <==> id == GetTierForMarketCap(t.marketCap).value.id
    {
      assert id in TierIds(MARKET_CAP_TIERS);
      GroupMembership(ts, t, id);
    }
  }

  // ---------------------------------------------------------------------
  // Relative time
  // ---------------------------------------------------------------------

  const MINUTE_MS: int := 60_000
  const HOUR_MS: int := 3_600_000
  const DAY_MS: int := 86_400_000

  /**
   * "just now", "Nm ago", "Nh ago" or "Nd ago" for the time elapsed from
   * `timestamp` to `now`. `Math.floor` of a quotient by a positive divisor is
   * Dafny's `/`, including for negative differences.
   */
  function FormatRelativeTime(now: int, timestamp: int): (r: string)
    ensures now - timestamp < MINUTE_MS <==> r == "just now"
    ensures MINUTE_MS <= now - timestamp < HOUR_MS ==>
              exists n: nat :: 1 <= n < 60 && n * MINUTE_MS <= now - timestamp < (n + 1) * MINUTE_MS
                               && r == NatToString(n) + "m ago"
    ensures HOUR_MS <= now - timestamp < DAY_MS ==>
              exists n: nat :: 1 <= n < 24 && n * HOUR_MS <= now - timestamp < (n + 1) * HOUR_MS
                               && r == NatToString(n) + "h ago"
    ensures DAY_MS <= now - timestamp ==>
              exists n: nat :: 1 <= n && n * DAY_MS <= now - timestamp < (n + 1) * DAY_MS
                               && r == NatToString(n) + "d ago"
  {
    var diff := now - timestamp;
    var minutes := diff / MINUTE_MS;
    var hours := diff / HOUR_MS;
    var days := diff / DAY_MS;
    if minutes < 1 then "just now"
    else if minutes < 60 then CountNotJustNow(minutes, "m ago"); NatToString(minutes) + "m ago"
    else if hours < 24 then CountNotJustNow(hours, "h ago"); NatToString(hours) + "h ago"
    else CountNotJustNow(days, "d ago"); NatToString(days) + "d ago"
  }

  /** A rendered count starts with a digit, so it is never "just now". */
  lemma CountNotJustNow(n: nat, unit: string)
    ensures NatToString(n) + unit != "just now"
  {
    var s := NatToString(n) + unit;
    assert s[0] == NatToString(n)[0];
  }

  // ---------------------------------------------------------------------
  // Truncation
  // ---------------------------------------------------------------------

  /**
   * `s.slice(0, end)`: a negative `end` counts back from the end of `s`,
   * and the result is clamped to `s`.
   */
  function SlicePrefix(s: string, end: int): (r: string)
    ensures end >= 0 ==> r == s[..if end <= |s| then end else |s|]
    ensures end < 0 ==> r == s[..if |s| + end >= 0 then |s| + end else 0]
  {
    var e := if end < 0 then (if |s| + end >= 0 then |s| + end else 0)
             else (if end <= |s| then end else |s|);
    s[..e]
  }

  /** `text`, cut down to `maxLength` characters ending in "..." when it is longer. */
  function Truncate(text: string, maxLength: int): (r: string)
    ensures |text| <= maxLength ==> r == text
    ensures |text| > maxLength >= 3 ==>
              |r| == maxLength && r[..maxLength - 3] == text[..maxLength - 3]
              && r[maxLength - 3..] == "..."
    ensures |text| > maxLength ==> |r| >= 3 && r[|r| - 3..] == "..."
  {
    if |text| <= maxLength then text
    else SlicePrefix(text, maxLength - 3) + "..."
  }

  /** Below 3 the slice end goes negative and counts from the end, so the result outgrows `maxLength`. */
  lemma TruncateSmallLimit()
    ensures Truncate("abcdef", 2) == "abcde..."
  {
  }
}
