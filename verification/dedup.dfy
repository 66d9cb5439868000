/**
 * Deduplication by token address. The source walks the tokens in order and
 * keeps one entry per address in an insertion-ordered map: the first token
 * seen for an address is the base, and every later token with that address
 * is merged into it.
 */
module Dedup {
  import opened Wrappers
  import opened Types

  predicate DistinctAddresses(ts: seq<Token>) {
    forall i, j :: 0 <= i < j < |ts| ==> ts[i].address != ts[j].address
  }

  function AddressSet(ts: seq<Token>): set<string> {
    set t | t in ts :: t.address
  }

  lemma AddressSetSnoc(ts: seq<Token>, t: Token)
    ensures AddressSet(ts + [t]) == AddressSet(ts) + {t.address}
  {
    assert forall u :: u in ts + [t] <==> u in ts || u == t;
  }

  /** Position of the entry for address `a` in `acc`, if there is one. */
  function IndexOfAddress(acc: seq<Token>, a: string): (r: Option<nat>)
    ensures r.Some? ==> r.value < |acc| && acc[r.value].address == a
    ensures r.None? ==> forall i :: 0 <= i < |acc| ==> acc[i].address != a
  {
    if |acc| == 0 then None
    else if acc[0].address == a then Some(0)
    else match IndexOfAddress(acc[1..], a)
      case None => None
      case Some(k) => Some(k + 1)
  }

  /**
   * Merge a later token into the entry kept so far: the image is kept if
   * present, the name is kept unless it equals the symbol (the later name is
   * then taken whatever it is), the three amounts become maxima, and every
   * other field stays.
   */
  function MergeTokens(existing: Token, token: Token): (r: Token)
    ensures r.address == existing.address && r.symbol == existing.symbol
    ensures r.pairAddress == existing.pairAddress && r.pairCreatedAt == existing.pairCreatedAt
    ensures HasImage(existing) ==> r.imageUrl == existing.imageUrl
    ensures !HasImage(existing) ==> r.imageUrl == token.imageUrl
    ensures existing.name != existing.symbol ==> r.name == existing.name
    ensures existing.name == existing.symbol ==> r.name == token.name
    ensures r.marketCap >= existing.marketCap && r.marketCap >= token.marketCap
    ensures r.marketCap == existing.marketCap || r.marketCap == token.marketCap
    ensures r.liquidity >= existing.liquidity && r.liquidity >= token.liquidity
    ensures r.liquidity == existing.liquidity || r.liquidity == token.liquidity
    ensures r.volume24h >= existing.volume24h && r.volume24h >= token.volume24h
    ensures r.volume24h == existing.volume24h || r.volume24h == token.volume24h
    ensures r == existing.(imageUrl := r.imageUrl, name := r.name, marketCap := r.marketCap,
                           liquidity := r.liquidity, volume24h := r.volume24h)
  {
    existing.(
      imageUrl := StrOr(existing.imageUrl, token.imageUrl),
      name := if existing.name != existing.symbol then existing.name else token.name,
      marketCap := Max(existing.marketCap, token.marketCap),
      liquidity := Max(existing.liquidity, token.liquidity),
      volume24h := Max(existing.volume24h, token.volume24h))
  }

  /** Process one token: a new address is appended, a known one is merged in place. */
  function InsertToken(acc: seq<Token>, t: Token): (r: seq<Token>)
    requires DistinctAddresses(acc)
    ensures DistinctAddresses(r)
    ensures AddressSet(r) == AddressSet(acc) + {t.address}
    ensures |r| == if t.address in AddressSet(acc) then |acc| else |acc| + 1
    ensures forall i :: 0 <= i < |acc| ==> r[i].address == acc[i].address
  {
    match IndexOfAddress(acc, t.address)
    case None =>
      AddressSetSnoc(acc, t);
      acc + [t]
    case Some(i) =>
      var r := acc[i := MergeTokens(acc[i], t)];
      assert forall u :: u in r ==> u.address in AddressSet(acc) by {
        forall u | u in r ensures u.address in AddressSet(acc) {
          var k :| 0 <= k < |r| && r[k] == u;
          assert r[k].address == acc[k].address;
        }
      }
      assert forall u :: u in acc ==> u.address in AddressSet(r) by {
        forall u | u in acc ensures u.address in AddressSet(r) {
          var k :| 0 <= k < |acc| && acc[k] == u;
          assert r[k] in r;
        }
      }
      r
  }

  /** One token per address, in first-occurrence order. */
  function DeduplicateTokens(ts: seq<Token>): (r: seq<Token>)
    ensures DistinctAddresses(r)
    ensures AddressSet(r) == AddressSet(ts)
    ensures |r| <= |ts|
  {
    if |ts| == 0 then []
    else
      var last := ts[|ts| - 1];
      assert ts == ts[..|ts| - 1] + [last];
      AddressSetSnoc(ts[..|ts| - 1], last);
      InsertToken(DeduplicateTokens(ts[..|ts| - 1]), last)
  }

  // ---------------------------------------------------------------------
  // Reference definition of a merged entry
  // ---------------------------------------------------------------------

  /** The tokens of `ts` with address `a`, in input order. */
  function Occurrences(ts: seq<Token>, a: string): (r: seq<Token>)
    ensures forall i :: 0 <= i < |r| ==> r[i].address == a && r[i] in ts
    ensures |r| > 0 <==> a in AddressSet(ts)
  {
    if |ts| == 0 then []
    else
      var last := ts[|ts| - 1];
      assert ts == ts[..|ts| - 1] + [last];
      AddressSetSnoc(ts[..|ts| - 1], last);
      Occurrences(ts[..|ts| - 1], a) + (if last.address == a then [last] else [])
  }

  /** The largest of a non-empty list of amounts. */
  function MaxOf(s: seq<real>): (m: real)
    requires |s| > 0
    ensures m in s
    ensures forall i :: 0 <= i < |s| ==> s[i] <= m
  {
    if |s| == 1 then s[0]
    else Max(MaxOf(s[..|s| - 1]), s[|s| - 1])
  }

  function MarketCaps(occ: seq<Token>): seq<real> {
    seq(|occ|, i requires 0 <= i < |occ| => occ[i].marketCap)
  }

  function Liquidities(occ: seq<Token>): seq<real> {
    seq(|occ|, i requires 0 <= i < |occ| => occ[i].liquidity)
  }

  function Volumes(occ: seq<Token>): seq<real> {
    seq(|occ|, i requires 0 <= i < |occ| => occ[i].volume24h)
  }

  /** The first image among the occurrences; the last occurrence's value when none has one. */
  function FirstImage(occ: seq<Token>): (r: Option<string>)
    requires |occ| > 0
    ensures forall i ::
              (0 <= i < |occ| && HasImage(occ[i]) && (forall j :: 0 <= j < i ==> !HasImage(occ[j])))
              ==> r == occ[i].imageUrl
    ensures (forall i :: 0 <= i < |occ| ==> !HasImage(occ[i])) ==> r == occ[|occ| - 1].imageUrl
  {
    if |occ| == 1 || HasImage(occ[0]) then occ[0].imageUrl
    else FirstImage(occ[1..])
  }

  /** The first name among the occurrences that differs from `symbol`, or the last name when none does. */
  function FirstDistinctName(occ: seq<Token>, symbol: string): (r: string)
    requires |occ| > 0
    ensures forall i ::
              (0 <= i < |occ| && occ[i].name != symbol && (forall j :: 0 <= j < i ==> occ[j].name == symbol))
              ==> r == occ[i].name
    ensures (forall i :: 0 <= i < |occ| ==> occ[i].name == symbol) ==> r == symbol
  {
    if |occ| == 1 || occ[0].name != symbol then occ[0].name
    else FirstDistinctName(occ[1..], symbol)
  }

  /**
   * The entry deduplication should produce for the occurrences of one
   * address: the first occurrence, with the maxima of the three amounts, the
   * first image, and the first name that differs from the first symbol.
   */
  function Merged(occ: seq<Token>): Token
    requires |occ| > 0
  {
    occ[0].(
      imageUrl := FirstImage(occ),
      name := FirstDistinctName(occ, occ[0].symbol),
      marketCap := MaxOf(MarketCaps(occ)),
      liquidity := MaxOf(Liquidities(occ)),
      volume24h := MaxOf(Volumes(occ)))
  }

  lemma MergedSingleton(t: Token)
    ensures Merged([t]) == t
  {
    assert MarketCaps([t]) == [t.marketCap];
    assert Liquidities([t]) == [t.liquidity];
    assert Volumes([t]) == [t.volume24h];
  }

  lemma {:induction false} FirstImageSnoc(occ: seq<Token>, t: Token)
    requires |occ| > 0
    ensures FirstImage(occ + [t]) == if TruthyStr(FirstImage(occ)) then FirstImage(occ) else t.imageUrl
  {
    var s := occ + [t];
    assert s[0] == occ[0];
    if |occ| > 1 && !HasImage(occ[0]) {
      assert s[1..] == occ[1..] + [t];
      FirstImageSnoc(occ[1..], t);
    } else if |occ| == 1 && !HasImage(occ[0]) {
      assert s[1..] == [t];
    }
  }

  lemma {:induction false} FirstDistinctNameSnoc(occ: seq<Token>, t: Token, symbol: string)
    requires |occ| > 0
    ensures FirstDistinctName(occ + [t], symbol)
            == if FirstDistinctName(occ, symbol) != symbol then FirstDistinctName(occ, symbol) else t.name
  {
    var s := occ + [t];
    assert s[0] == occ[0];
    if |occ| > 1 && occ[0].name == symbol {
      assert s[1..] == occ[1..] + [t];
      FirstDistinctNameSnoc(occ[1..], t, symbol);
    } else if |occ| == 1 && occ[0].name == symbol {
      assert s[1..] == [t];
    }
  }

  lemma MaxOfSnoc(s: seq<real>, x: real)
    requires |s| > 0
    ensures MaxOf(s + [x]) == Max(MaxOf(s), x)
  {
    assert (s + [x])[..|s|] == s;
  }

  lemma AmountsSnoc(occ: seq<Token>, t: Token)
    requires |occ| > 0
    ensures MaxOf(MarketCaps(occ + [t])) == Max(MaxOf(MarketCaps(occ)), t.marketCap)
    ensures MaxOf(Liquidities(occ + [t])) == Max(MaxOf(Liquidities(occ)), t.liquidity)
    ensures MaxOf(Volumes(occ + [t])) == Max(MaxOf(Volumes(occ)), t.volume24h)
  {
    assert MarketCaps(occ + [t]) == MarketCaps(occ) + [t.marketCap];
    assert Liquidities(occ + [t]) == Liquidities(occ) + [t.liquidity];
    assert Volumes(occ + [t]) == Volumes(occ) + [t.volume24h];
    MaxOfSnoc(MarketCaps(occ), t.marketCap);
    MaxOfSnoc(Liquidities(occ), t.liquidity);
    MaxOfSnoc(Volumes(occ), t.volume24h);
  }

  /** Merging one more occurrence into the merged entry gives the merged entry of the longer list. */
  lemma MergeTokensSnoc(occ: seq<Token>, t: Token)
    requires |occ| > 0
    ensures MergeTokens(Merged(occ), t) == Merged(occ + [t])
  {
    assert (occ + [t])[0] == occ[0];
    FirstImageSnoc(occ, t);
    FirstDistinctNameSnoc(occ, t, occ[0].symbol);
    AmountsSnoc(occ, t);
  }

  /** Each output entry is the merge of all input tokens sharing its address. */
  predicate EntriesMerged(r: seq<Token>, ts: seq<Token>) {
    forall i :: 0 <= i < |r| ==>
      |Occurrences(ts, r[i].address)| > 0 && r[i] == Merged(Occurrences(ts, r[i].address))
  }

  lemma OccurrencesSnoc(ts: seq<Token>, t: Token, a: string)
    ensures t.address == a ==> Occurrences(ts + [t], a) == Occurrences(ts, a) + [t]
    ensures t.address != a ==> Occurrences(ts + [t], a) == Occurrences(ts, a)
  {
    assert (ts + [t])[..|ts|] == ts;
    assert Occurrences(ts, a) + [] == Occurrences(ts, a);
  }

  /** One step of the walk keeps every entry equal to the merge of its occurrences so far. */
  lemma InsertTokenEntryMerged(acc: seq<Token>, prefix: seq<Token>, t: Token, i: nat)
    requires DistinctAddresses(acc) && AddressSet(acc) == AddressSet(prefix)
    requires EntriesMerged(acc, prefix)
    requires i < |InsertToken(acc, t)|
    ensures |Occurrences(prefix + [t], InsertToken(acc, t)[i].address)| > 0
    ensures InsertToken(acc, t)[i] == Merged(Occurrences(prefix + [t], InsertToken(acc, t)[i].address))
  {
    match IndexOfAddress(acc, t.address)
    case None =>
      if i == |acc| {
        NewAddressEntryMerged(prefix, t);
      } else {
        UntouchedEntryMerged(acc[i], prefix, t);
      }
    case Some(k) =>
      if i == k {
        MergeTokensSnoc(Occurrences(prefix, t.address), t);
        OccurrencesSnoc(prefix, t, t.address);
      } else {
        assert acc[i].address != acc[k].address;
        UntouchedEntryMerged(acc[i], prefix, t);
      }
  }

  /** A token with an address not seen before becomes its own entry. */
  lemma NewAddressEntryMerged(prefix: seq<Token>, t: Token)
    requires t.address !in AddressSet(prefix)
    ensures Merged(Occurrences(prefix + [t], t.address)) == t
  {
    OccurrencesSnoc(prefix, t, t.address);
    assert Occurrences(prefix, t.address) == [];
    MergedSingleton(t);
  }

  /** An entry with another address is not affected by the step. */
  lemma UntouchedEntryMerged(e: Token, prefix: seq<Token>, t: Token)
    requires e.address != t.address
    requires |Occurrences(prefix, e.address)| > 0 && e == Merged(Occurrences(prefix, e.address))
    ensures |Occurrences(prefix + [t], e.address)| > 0 && e == Merged(Occurrences(prefix + [t], e.address))
  {
    OccurrencesSnoc(prefix, t, e.address);
  }

  /**
   * For every address, the deduplicated entry is `Merged` of that address's
   * occurrences: amounts are maxima over all of them, the image is the first
   * one present, and the other fields come from the first occurrence.
   */
  lemma {:induction false} DeduplicateMergesOccurrences(ts: seq<Token>)
    ensures EntriesMerged(DeduplicateTokens(ts), ts)
  {
    if |ts| > 0 {
      var prefix := ts[..|ts| - 1];
      var t := ts[|ts| - 1];
      assert ts == prefix + [t];
      DeduplicateMergesOccurrences(prefix);
      var acc := DeduplicateTokens(prefix);
      forall i | 0 <= i < |InsertToken(acc, t)|
        ensures |Occurrences(ts, InsertToken(acc, t)[i].address)| > 0
        ensures InsertToken(acc, t)[i] == Merged(Occurrences(ts, InsertToken(acc, t)[i].address))
      {
        InsertTokenEntryMerged(acc, prefix, t, i);
      }
    }
  }

  // ---------------------------------------------------------------------
  // Order and idempotence
  // ---------------------------------------------------------------------

  /** Position of the first token of `ts` with address `a`; `|ts|` when there is none. */
  function FirstIndex(ts: seq<Token>, a: string): (k: nat)
    ensures k <= |ts|
    ensures k < |ts| ==> ts[k].address == a
    ensures forall j :: 0 <= j < k ==> ts[j].address != a
  {
    if |ts| == 0 then 0
    else
      var k := FirstIndex(ts[..|ts| - 1], a);
      if k < |ts| - 1 then k
      else if ts[|ts| - 1].address == a then |ts| - 1
      else |ts|
  }

  lemma FirstIndexSnoc(ts: seq<Token>, t: Token, a: string)
    ensures a in AddressSet(ts) ==> FirstIndex(ts + [t], a) == FirstIndex(ts, a) < |ts|
    ensures a !in AddressSet(ts) && t.address == a ==> FirstIndex(ts + [t], a) == |ts|
  {
    assert (ts + [t])[..|ts|] == ts;
    if a in AddressSet(ts) {
      var u :| u in ts && u.address == a;
    }
  }

  /** Entries appear in the order in which their addresses first occur in the input. */
  predicate FirstOccurrenceOrder(r: seq<Token>, ts: seq<Token>) {
    forall i, j :: 0 <= i < j < |r| ==> FirstIndex(ts, r[i].address) < FirstIndex(ts, r[j].address)
  }

  lemma InsertTokenKeepsOrder(acc: seq<Token>, prefix: seq<Token>, t: Token)
    requires DistinctAddresses(acc) && AddressSet(acc) == AddressSet(prefix)
    requires FirstOccurrenceOrder(acc, prefix)
    ensures FirstOccurrenceOrder(InsertToken(acc, t), prefix + [t])
  {
    var r := InsertToken(acc, t);
    forall i | 0 <= i < |acc|
      ensures FirstIndex(prefix + [t], r[i].address) == FirstIndex(prefix, acc[i].address) < |prefix|
    {
      assert acc[i] in acc;
      FirstIndexSnoc(prefix, t, acc[i].address);
    }
    if |r| > |acc| {
      FirstIndexSnoc(prefix, t, t.address);
    }
  }

  lemma {:induction false} DeduplicateKeepsFirstOccurrenceOrder(ts: seq<Token>)
    ensures FirstOccurrenceOrder(DeduplicateTokens(ts), ts)
  {
    if |ts| > 0 {
      var prefix := ts[..|ts| - 1];
      var t := ts[|ts| - 1];
      assert ts == prefix + [t];
      DeduplicateKeepsFirstOccurrenceOrder(prefix);
      InsertTokenKeepsOrder(DeduplicateTokens(prefix), prefix, t);
    }
  }

  /** Dropping the last token keeps the addresses distinct, and the last address is new to the rest. */
  lemma DistinctLastIsNew(ts: seq<Token>)
    requires DistinctAddresses(ts) && |ts| > 0
    ensures DistinctAddresses(ts[..|ts| - 1])
    ensures IndexOfAddress(ts[..|ts| - 1], ts[|ts| - 1].address) == None
  {
    var prefix := ts[..|ts| - 1];
    assert forall i :: 0 <= i < |prefix| ==> prefix[i] == ts[i];
  }

  /** One step of the fold: the last token is inserted into the deduplicated rest. */
  lemma DeduplicateUnfold(ts: seq<Token>)
    requires |ts| > 0
    ensures DeduplicateTokens(ts) == InsertToken(DeduplicateTokens(ts[..|ts| - 1]), ts[|ts| - 1])
  {
  }

  /** A token whose address is new is appended at the end. */
  lemma InsertNewAppends(acc: seq<Token>, t: Token)
    requires DistinctAddresses(acc) && IndexOfAddress(acc, t.address) == None
    ensures InsertToken(acc, t) == acc + [t]
  {
  }

  /** Input whose addresses are already distinct comes back unchanged. */
  lemma {:induction false} DeduplicateIdempotent(ts: seq<Token>)
    requires DistinctAddresses(ts)
    ensures DeduplicateTokens(ts) == ts
  {
    if |ts| > 0 {
      var prefix := ts[..|ts| - 1];
      DistinctLastIsNew(ts);
      var t := ts[|ts| - 1];
      DeduplicateIdempotent(prefix);
      calc {
        DeduplicateTokens(ts);
        { DeduplicateUnfold(ts); }
        InsertToken(DeduplicateTokens(prefix), t);
        InsertToken(prefix, t);
        { InsertNewAppends(prefix, t); }
        prefix + [t];
        ts;
      }
    }
  }

  /** Deduplicating twice is the same as deduplicating once. */
  lemma DeduplicateTwice(ts: seq<Token>)
    ensures DeduplicateTokens(DeduplicateTokens(ts)) == DeduplicateTokens(ts)
  {
    DeduplicateIdempotent(DeduplicateTokens(ts));
  }

  /** The merged amounts do not depend on how three records are paired. */
  lemma MergeAmountsAssociative(a: Token, b: Token, c: Token)
    ensures MergeTokens(MergeTokens(a, b), c).marketCap == MergeTokens(a, MergeTokens(b, c)).marketCap
    ensures MergeTokens(MergeTokens(a, b), c).liquidity == MergeTokens(a, MergeTokens(b, c)).liquidity
    ensures MergeTokens(MergeTokens(a, b), c).volume24h == MergeTokens(a, MergeTokens(b, c)).volume24h
    ensures MergeTokens(a, b).marketCap == MergeTokens(b, a).marketCap
    ensures MergeTokens(a, b).liquidity == MergeTokens(b, a).liquidity
    ensures MergeTokens(a, b).volume24h == MergeTokens(b, a).volume24h
  {
  }

  /**
   * The deduplicated entry for an address, stated against that address's
   * occurrences in the input: the amounts are their maxima, the image is the
   * first one present, the name is the first that differs from the first
   * occurrence's symbol, and every other field is the first occurrence's.
   */
  lemma DeduplicatedEntry(ts: seq<Token>, i: nat)
    requires i < |DeduplicateTokens(ts)|
    ensures var e := DeduplicateTokens(ts)[i];
            var occ := Occurrences(ts, e.address);
            && |occ| > 0
            && e == occ[0].(imageUrl := e.imageUrl, name := e.name, marketCap := e.marketCap,
                            liquidity := e.liquidity, volume24h := e.volume24h)
            && (forall k :: 0 <= k < |occ| ==>
                  occ[k].marketCap <= e.marketCap && occ[k].liquidity <= e.liquidity
                  && occ[k].volume24h <= e.volume24h)
            && e.marketCap in MarketCaps(occ) && e.liquidity in Liquidities(occ)
            && e.volume24h in Volumes(occ)
            && (forall k ::
                  (0 <= k < |occ| && HasImage(occ[k]) && (forall j :: 0 <= j < k ==> !HasImage(occ[j])))
                  ==> e.imageUrl == occ[k].imageUrl)
            && ((forall k :: 0 <= k < |occ| ==> occ[k].name == occ[0].symbol) ==> e.name == occ[0].symbol)
            && (forall k ::
                  (0 <= k < |occ| && occ[k].name != occ[0].symbol
                   && (forall j :: 0 <= j < k ==> occ[j].name == occ[0].symbol))
                  ==> e.name == occ[k].name)
  {
    DeduplicateMergesOccurrences(ts);
    var e := DeduplicateTokens(ts)[i];
    var occ := Occurrences(ts, e.address);
    assert e == Merged(occ);
    forall k | 0 <= k < |occ|
      ensures occ[k].marketCap <= e.marketCap && occ[k].liquidity <= e.liquidity
      ensures occ[k].volume24h <= e.volume24h
    {
      assert MarketCaps(occ)[k] == occ[k].marketCap;
      assert Liquidities(occ)[k] == occ[k].liquidity;
      assert Volumes(occ)[k] == occ[k].volume24h;
    }
  }
}
