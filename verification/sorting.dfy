/**
 * Ordering tokens by market cap, highest first. Insertion places a token
 * before the first one whose market cap is not larger.
 */
module Sorting {
  import opened Types

  predicate SortedByMarketCapDesc(s: seq<Token>) {
    forall i, j :: 0 <= i < j < |s| ==> s[i].marketCap >= s[j].marketCap
  }

  function InsertByMarketCap(x: Token, s: seq<Token>): (r: seq<Token>)
    ensures multiset(r) == multiset(s) + multiset{x}
    ensures |r| == |s| + 1
  {
    if |s| == 0 then [x]
    else if x.marketCap >= s[0].marketCap then [x] + s
    else
      assert s == [s[0]] + s[1..];
      [s[0]] + InsertByMarketCap(x, s[1..])
  }

  lemma {:induction false} InsertByMarketCapSorted(x: Token, s: seq<Token>)
    requires SortedByMarketCapDesc(s)
    ensures SortedByMarketCapDesc(InsertByMarketCap(x, s))
  {
    if |s| > 0 && x.marketCap < s[0].marketCap {
      var rest := InsertByMarketCap(x, s[1..]);
      InsertByMarketCapSorted(x, s[1..]);
      assert s == [s[0]] + s[1..];
      forall k | 0 <= k < |rest|
        ensures s[0].marketCap >= rest[k].marketCap
      {
        assert rest[k] in multiset(rest);
        assert rest[k] == x || rest[k] in multiset(s[1..]);
      }
    }
  }

  /** The tokens of `s`, rearranged so that market caps never increase. */
  function SortByMarketCapDesc(s: seq<Token>): (r: seq<Token>)
    ensures SortedByMarketCapDesc(r)
    ensures multiset(r) == multiset(s)
    ensures |r| == |s|
  {
    if |s| == 0 then []
    else
      assert s == [s[0]] + s[1..];
      var rest := SortByMarketCapDesc(s[1..]);
      InsertByMarketCapSorted(s[0], rest);
      InsertByMarketCap(s[0], rest)
  }
}
