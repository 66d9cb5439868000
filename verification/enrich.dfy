/**
 * Best-effort enrichment of tokens that lack an image. The candidates'
 * addresses are queried in batches; every returned pair that carries an image
 * records `{imageUrl, name}` under its base-token address, and the records
 * are then applied to the token list. A batch lookup is given as its outcome
 * for that batch of addresses: `None` when the request failed.
 */
module Enrich {
  import opened Wrappers
  import opened Types

  const ENRICH_BATCH_SIZE: nat := 30
  const ENRICH_MAX_CANDIDATES: nat := 150

  /** The provider's answer to one batch lookup. */
  type TokenLookup = seq<string> -> Option<seq<DexScreenerPair>>

  /** What enrichment learned about one address. */
  datatype Enrichment = Enrichment(imageUrl: string, name: string)

  function Min(a: int, b: int): int {
    if a <= b then a else b
  }

  /** The tokens without an image, in input order. */
  function NeedsEnrichment(ts: seq<Token>): (r: seq<Token>)
    ensures |r| <= |ts|
    ensures forall t :: t in r <==> t in ts && !HasImage(t)
  {
    if |ts| == 0 then []
    else (if HasImage(ts[0]) then [] else [ts[0]]) + NeedsEnrichment(ts[1..])
  }

  /**
   * Candidate selection distributes over concatenation, so the candidates
   * keep the input order that decides which 150 are queried.
   */
  lemma {:induction false} NeedsEnrichmentAppend(a: seq<Token>, b: seq<Token>)
    ensures NeedsEnrichment(a + b) == NeedsEnrichment(a) + NeedsEnrichment(b)
  {
    if |a| == 0 {
      assert a + b == b;
    } else {
      assert (a + b)[0] == a[0];
      assert (a + b)[1..] == a[1..] + b;
      NeedsEnrichmentAppend(a[1..], b);
    }
  }

  /** A single token is a candidate exactly when it has no image. */
  lemma NeedsEnrichmentSingleton(t: Token)
    ensures NeedsEnrichment([t]) == if HasImage(t) then [] else [t]
  {
    assert [t][1..] == [];
  }

  function Addresses(ts: seq<Token>): (r: seq<string>)
    ensures |r| == |ts| && forall i :: 0 <= i < |ts| ==> r[i] == ts[i].address
  {
    seq(|ts|, i requires 0 <= i < |ts| => ts[i].address)
  }

  function Flatten(batches: seq<seq<string>>): seq<string> {
    if |batches| == 0 then [] else batches[0] + Flatten(batches[1..])
  }

  /** Consecutive batches of up to 30 addresses, starting at `from` and stepping by 30 while below `limit`. */
  function BatchesFrom(addresses: seq<string>, from: nat, limit: nat): seq<seq<string>>
    requires limit <= |addresses|
    decreases limit - from
  {
    if from >= limit then []
    else [addresses[from..Min(from + ENRICH_BATCH_SIZE, |addresses|)]]
         + BatchesFrom(addresses, from + ENRICH_BATCH_SIZE, limit)
  }

  /** The address batches queried for a candidate list. */
  function EnrichmentBatches(candidates: seq<Token>): seq<seq<string>> {
    BatchesFrom(Addresses(candidates), 0, Min(|candidates|, ENRICH_MAX_CANDIDATES))
  }

  /** The addresses the batches cover, in order. */
  lemma {:induction false} BatchesFromCover(addresses: seq<string>, from: nat, limit: nat)
    requires limit <= |addresses|
    requires from <= limit && from % ENRICH_BATCH_SIZE == 0
    requires limit == |addresses| || limit % ENRICH_BATCH_SIZE == 0
    ensures Flatten(BatchesFrom(addresses, from, limit)) == addresses[from..limit]
    decreases limit - from
  {
    if from < limit {
      var r := BatchesFrom(addresses, from, limit);
      var next := from + ENRICH_BATCH_SIZE;
      if next >= limit {
        assert BatchesFrom(addresses, next, limit) == [];
        assert Min(next, |addresses|) == limit;
        assert r == [addresses[from..limit]];
        assert Flatten(r) == addresses[from..limit] + Flatten([]);
      } else {
        BatchesFromCover(addresses, next, limit);
        assert r[0] == addresses[from..next];
        assert r[1..] == BatchesFrom(addresses, next, limit);
        assert addresses[from..limit] == addresses[from..next] + addresses[next..limit];
      }
    }
  }

  /** Every batch holds between 1 and 30 addresses. */
  lemma {:induction false} BatchesFromSizes(addresses: seq<string>, from: nat, limit: nat)
    requires limit <= |addresses|
    ensures forall b :: b in BatchesFrom(addresses, from, limit) ==> 0 < |b| <= ENRICH_BATCH_SIZE
    decreases limit - from
  {
    if from < limit {
      BatchesFromSizes(addresses, from + ENRICH_BATCH_SIZE, limit);
    }
  }

  /** Starting at a multiple of 30 below a limit of at most 150, at most (150 - from) / 30 batches are made. */
  lemma {:induction false} BatchesFromCount(addresses: seq<string>, from: nat, limit: nat)
    requires limit <= |addresses| && limit <= ENRICH_MAX_CANDIDATES
    requires from % ENRICH_BATCH_SIZE == 0 && from <= ENRICH_MAX_CANDIDATES
    ensures |BatchesFrom(addresses, from, limit)| <= (ENRICH_MAX_CANDIDATES - from) / ENRICH_BATCH_SIZE
    decreases limit - from
  {
    if from < limit {
      BatchesFromCount(addresses, from + ENRICH_BATCH_SIZE, limit);
    }
  }

  /**
   * At most 150 candidates are queried, in at most five batches of at most
   * 30 addresses; together the batches are the first min(#candidates, 150)
   * candidate addresses, in order.
   */
  lemma EnrichmentBatchesBounded(candidates: seq<Token>)
    ensures Flatten(EnrichmentBatches(candidates))
            == Addresses(candidates)[..Min(|candidates|, ENRICH_MAX_CANDIDATES)]
    ensures forall b :: b in EnrichmentBatches(candidates) ==> 0 < |b| <= ENRICH_BATCH_SIZE
    ensures |EnrichmentBatches(candidates)| <= ENRICH_MAX_CANDIDATES / ENRICH_BATCH_SIZE
  {
    var limit := Min(|candidates|, ENRICH_MAX_CANDIDATES);
    BatchesFromCover(Addresses(candidates), 0, limit);
    BatchesFromSizes(Addresses(candidates), 0, limit);
    BatchesFromCount(Addresses(candidates), 0, limit);
  }

  /** The pairs returned for all batches, in batch order; a failed batch adds none. */
  function ReturnedPairs(batches: seq<seq<string>>, lookup: TokenLookup): seq<DexScreenerPair> {
    if |batches| == 0 then []
    else lookup(batches[0]).GetOr([]) + ReturnedPairs(batches[1..], lookup)
  }

  /** The address a returned pair is recorded under, when it carries an image. */
  predicate RecordsImage(p: DexScreenerPair) {
    TruthyStr(p.imageUrl)
  }

  /**
   * Each returned pair that carries an image records its image and name
   * under its base-token address; later records for the same address
   * overwrite earlier ones.
   */
  function EnrichmentMap(pairs: seq<DexScreenerPair>): (m: map<string, Enrichment>)
    ensures forall a :: a in m ==> m[a].imageUrl != ""
    ensures m.Keys == set i | 0 <= i < |pairs| && RecordsImage(pairs[i]) :: pairs[i].baseToken.address
  {
    if |pairs| == 0 then map[]
    else
      var last := pairs[|pairs| - 1];
      var prefix := pairs[..|pairs| - 1];
      var m := EnrichmentMap(prefix);
      assert forall i :: 0 <= i < |prefix| ==> prefix[i] == pairs[i];
      if RecordsImage(last) then m[last.baseToken.address := Enrichment(last.imageUrl.value, last.baseToken.name)]
      else m
  }

  /** The record for an address comes from the last pair with an image for it. */
  lemma {:induction false} EnrichmentMapLastWins(pairs: seq<DexScreenerPair>, i: nat)
    requires i < |pairs| && RecordsImage(pairs[i])
    requires forall j :: i < j < |pairs| ==>
               !(RecordsImage(pairs[j]) && pairs[j].baseToken.address == pairs[i].baseToken.address)
    ensures pairs[i].baseToken.address in EnrichmentMap(pairs)
    ensures EnrichmentMap(pairs)[pairs[i].baseToken.address]
            == Enrichment(pairs[i].imageUrl.value, pairs[i].baseToken.name)
  {
    var last := pairs[|pairs| - 1];
    var prefix := pairs[..|pairs| - 1];
    if i < |pairs| - 1 {
      assert forall j :: 0 <= j < |prefix| ==> prefix[j] == pairs[j];
      EnrichmentMapLastWins(prefix, i);
      assert !(RecordsImage(last) && last.baseToken.address == pairs[i].baseToken.address);
    }
  }

  /** A token with a record takes the record's image and name, each only when non-empty; others are unchanged. */
  function EnrichToken(t: Token, m: map<string, Enrichment>): (r: Token)
    ensures t.address !in m ==> r == t
    ensures r.(imageUrl := t.imageUrl, name := t.name) == t
    ensures t.address in m ==>
              r.imageUrl == (if m[t.address].imageUrl != "" then Some(m[t.address].imageUrl) else t.imageUrl)
    ensures t.address in m ==> r.name == (if m[t.address].name != "" then m[t.address].name else t.name)
  {
    if t.address in m then
      var extra := m[t.address];
      t.(imageUrl := if extra.imageUrl != "" then Some(extra.imageUrl) else t.imageUrl,
         name := if extra.name != "" then extra.name else t.name)
    else t
  }

  /** Two tokens agree on every field except image and name. */
  predicate SameExceptMetadata(a: Token, b: Token) {
    a.(imageUrl := b.imageUrl, name := b.name) == b
  }

  /**
   * Applying the records: length, order and every field but image and name
   * are kept; a token without a record is unchanged; a token with one takes
   * its image, and its name unless that is empty.
   */
  function ApplyEnrichment(ts: seq<Token>, m: map<string, Enrichment>): (r: seq<Token>)
    ensures |r| == |ts|
    ensures forall i :: 0 <= i < |ts| ==> SameExceptMetadata(ts[i], r[i])
    ensures forall i :: 0 <= i < |ts| && ts[i].address !in m ==> r[i] == ts[i]
    ensures forall i :: 0 <= i < |ts| && ts[i].address in m && m[ts[i].address].imageUrl != "" ==>
              r[i].imageUrl == Some(m[ts[i].address].imageUrl)
    ensures forall i :: 0 <= i < |ts| && ts[i].address in m ==>
              r[i].name == if m[ts[i].address].name != "" then m[ts[i].address].name else ts[i].name
  {
    seq(|ts|, i requires 0 <= i < |ts| => EnrichToken(ts[i], m))
  }

  /** The records built from the lookups for a token list. */
  function EnrichmentRecords(ts: seq<Token>, lookup: TokenLookup): (m: map<string, Enrichment>)
    ensures forall a :: a in m ==> m[a].imageUrl != ""
  {
    EnrichmentMap(ReturnedPairs(EnrichmentBatches(NeedsEnrichment(ts)), lookup))
  }

  /**
   * Enrichment never changes the length, order, addresses or amounts of the
   * list; a token only gains or replaces its image, never loses it; a token
   * with a record takes the record's name unless that is empty; and when no
   * token lacks an image the list is returned as is.
   */
  function EnrichWithDexScreener(ts: seq<Token>, lookup: TokenLookup): (r: seq<Token>)
    ensures |r| == |ts|
    ensures forall i :: 0 <= i < |ts| ==> SameExceptMetadata(ts[i], r[i])
    ensures forall i :: 0 <= i < |ts| && HasImage(ts[i]) ==> HasImage(r[i])
    ensures |NeedsEnrichment(ts)| == 0 ==> r == ts
    ensures forall i :: 0 <= i < |ts| && ts[i].address !in EnrichmentRecords(ts, lookup) ==> r[i] == ts[i]
    ensures forall i :: 0 <= i < |ts| && ts[i].address in EnrichmentRecords(ts, lookup) ==>
              r[i].imageUrl == Some(EnrichmentRecords(ts, lookup)[ts[i].address].imageUrl)
    ensures forall i :: 0 <= i < |ts| && ts[i].address in EnrichmentRecords(ts, lookup) ==>
              r[i].name == (if EnrichmentRecords(ts, lookup)[ts[i].address].name != ""
                            then EnrichmentRecords(ts, lookup)[ts[i].address].name else ts[i].name)
  {
    if |NeedsEnrichment(ts)| == 0 then
      assert forall i :: 0 <= i < |ts| ==> ts[i] in ts;
      ts
    else ApplyEnrichment(ts, EnrichmentRecords(ts, lookup))
  }
}
