/** The search route: it resolves the query parameters, then keeps the
    pairs that pass the chain, liquidity, volume and category filters, in
    their original order, and returns at most the first 60 of them. */
module Screener {
  import opened Optional
  import opened Text
  import opened Seqs
  import opened Pairs
  import opened Classifier

  const MaxResults: nat := 60
  const DefaultQuery: string := "top"
  const AllTypes: string := "all"

  /** The search text sent upstream: the trimmed `query` parameter, or
      `"top"` when it is absent or blank. */
  function ResolveQuery(param: Option<string>): (q: string)
    ensures q != [] && IsTrimmed(q)
    ensures param.Some? && Trim(param.value) != [] ==> q == Trim(param.value)
    ensures param.None? || Trim(param.value) == [] ==> q == DefaultQuery
  {
    match param
    case None => DefaultQuery
    case Some(s) => TrimmedOr(s, DefaultQuery)
  }

  /** A well-formed entry of the chain allow-list. */
  predicate IsChainId(id: string) {
    id != [] && IsTrimmed(id) && IsLower(id) && ',' !in id
  }

  /** `id.trim().toLowerCase()` */
  function NormalizeChainId(id: string): (r: string)
    ensures IsTrimmed(r) && IsLower(r)
    ensures ',' !in id ==> ',' !in r
    ensures r == [] <==> AllSpace(id)
  {
    var t := Trim(id);
    LowerKeepsTrimmed(t);
    LowerIsLower(t);
    LowerSliceWithout(id, LeadingSpaces(id), LeadingSpaces(id) + |t|, ',');
    Lower(t)
  }

  /** Up to case the normalised id is the trimmed entry; with `IsLower`
      this fixes it as the lower-cased trim. */
  lemma NormalizeChainIdCase(id: string)
    ensures Upper(NormalizeChainId(id)) == Upper(Trim(id))
  {
  }

  /** `.map((id) => id.trim().toLowerCase()).filter(Boolean)` */
  function NormalizeChainIds(parts: seq<string>): (ids: seq<string>)
    requires forall i :: 0 <= i < |parts| ==> ',' !in parts[i]
    ensures forall i :: 0 <= i < |ids| ==> IsChainId(ids[i])
    ensures |ids| <= |parts|
    decreases |parts|
  {
    if |parts| == 0 then []
    else
      Entry(parts[0]) + NormalizeChainIds(parts[1..])
  }

  /** What one piece contributes: its normalisation, unless that is empty. */
  function Entry(piece: string): seq<string> {
    var id := NormalizeChainId(piece);
    if id != [] then [id] else []
  }

  lemma NormalizeCons(parts: seq<string>)
    requires |parts| > 0
    requires forall i :: 0 <= i < |parts| ==> ',' !in parts[i]
    ensures NormalizeChainIds(parts) == Entry(parts[0]) + NormalizeChainIds(parts[1..])
  {
  }

  /** Every piece normalised, blank ones included. */
  function Normalized(parts: seq<string>): (ns: seq<string>)
    ensures |ns| == |parts|
    decreases |parts|
  {
    if |parts| == 0 then [] else [NormalizeChainId(parts[0])] + Normalized(parts[1..])
  }

  lemma NormalizedCons(parts: seq<string>)
    requires |parts| > 0
    ensures Normalized(parts) == [NormalizeChainId(parts[0])] + Normalized(parts[1..])
  {
  }

  /** Every non-blank piece contributes its normalisation. */
  lemma {:induction false} NormalizeCovers(parts: seq<string>)
    requires forall i :: 0 <= i < |parts| ==> ',' !in parts[i]
    ensures forall i :: 0 <= i < |parts| && !AllSpace(parts[i]) ==> NormalizeChainId(parts[i]) in NormalizeChainIds(parts)
    decreases |parts|
  {
    if |parts| > 0 {
      var head := Entry(parts[0]);
      var tail := parts[1..];
      var rest := NormalizeChainIds(tail);
      NormalizeCons(parts);
      NormalizeCovers(tail);
      forall i | 0 <= i < |parts| && !AllSpace(parts[i])
        ensures NormalizeChainId(parts[i]) in head + rest
      {
        if i == 0 {
          assert head == [NormalizeChainId(parts[0])];
        } else {
          assert parts[i] == tail[i - 1];
        }
      }
    }
  }

  /** The entries are, in order, the normalisations of some of the
      pieces. */
  lemma {:induction false} NormalizeSources(parts: seq<string>)
    requires forall i :: 0 <= i < |parts| ==> ',' !in parts[i]
    ensures Subsequence(NormalizeChainIds(parts), Normalized(parts))
    decreases |parts|
  {
    if |parts| > 0 {
      var head := Entry(parts[0]);
      var tail := parts[1..];
      var rest := NormalizeChainIds(tail);
      var n0 := NormalizeChainId(parts[0]);
      NormalizeCons(parts);
      NormalizeSources(tail);
      NormalizedCons(parts);
      SubsequenceMaybeCons(head, rest, n0, Normalized(tail));
    }
  }

  /** Normalising keeps the order of the pieces: the entries of a
      concatenation are those of the first part, then those of the second. */
  lemma {:induction false} NormalizeAppend(a: seq<string>, b: seq<string>)
    requires forall i :: 0 <= i < |a| ==> ',' !in a[i]
    requires forall i :: 0 <= i < |b| ==> ',' !in b[i]
    ensures NormalizeChainIds(a + b) == NormalizeChainIds(a) + NormalizeChainIds(b)
    decreases |a|
  {
    if |a| == 0 {
      assert a + b == b;
    } else {
      var ab := a + b;
      assert ab[0] == a[0] && ab[1..] == a[1..] + b;
      NormalizeAppend(a[1..], b);
      NormalizeCons(ab);
      NormalizeCons(a);
      SeqAssoc(Entry(a[0]), NormalizeChainIds(a[1..]), NormalizeChainIds(b));
    }
  }

  /** One piece gives its normalisation, or nothing when it is blank. */
  lemma NormalizeSingle(e: string)
    requires ',' !in e
    ensures NormalizeChainIds([e]) == if AllSpace(e) then [] else [NormalizeChainId(e)]
  {
  }

  /** The `chains` parameter as the chain allow-list; absent or blank
      gives the empty list, which restricts nothing. */
  function ParseChains(param: Option<string>): (ids: seq<string>)
    ensures param.None? || Trim(param.value) == [] ==> ids == []
    ensures forall i :: 0 <= i < |ids| ==> IsChainId(ids[i])
  {
    match param
    case None => []
    case Some(raw) =>
      var trimmed := Trim(raw);
      if trimmed == [] then [] else NormalizeChainIds(Split(trimmed, ','))
  }

  /** The entries of a non-blank `chains` parameter are, in order, the
      cleaned-up forms of some of its comma-separated pieces, and every
      piece that is not blank contributes its cleaned-up form. */
  lemma ParseChainsPieces(raw: string)
    requires Trim(raw) != []
    ensures forall i :: 0 <= i < |Split(Trim(raw), ',')| && !AllSpace(Split(Trim(raw), ',')[i]) ==>
      NormalizeChainId(Split(Trim(raw), ',')[i]) in ParseChains(Some(raw))
    ensures Subsequence(ParseChains(Some(raw)), Normalized(Split(Trim(raw), ',')))
  {
    var parts := Split(Trim(raw), ',');
    assert ParseChains(Some(raw)) == NormalizeChainIds(parts);
    NormalizeCovers(parts);
    NormalizeSources(parts);
  }

  lemma {:induction false} NormalizeWellFormed(ids: seq<string>)
    requires forall i :: 0 <= i < |ids| ==> IsChainId(ids[i]) && ',' !in ids[i]
    ensures NormalizeChainIds(ids) == ids
    decreases |ids|
  {
    if |ids| > 0 {
      NormalizeWellFormed(ids[1..]);
      TrimOfTrimmed(ids[0]);
      LowerOfLower(ids[0]);
      assert [ids[0]] + ids[1..] == ids;
    }
  }

  /** Parsing a comma-joined list of well-formed chain ids gives back the
      list. */
  lemma ParseChainsJoin(ids: seq<string>)
    requires |ids| > 0
    requires forall i :: 0 <= i < |ids| ==> IsChainId(ids[i])
    ensures ParseChains(Some(Join(ids, ','))) == ids
  {
    var s := Join(ids, ',');
    JoinTrimmed(ids);
    ParseTrimmed(s);
    assert forall i :: 0 <= i < |ids| ==> ',' !in ids[i];
    SplitJoin(ids, ',');
    NormalizeWellFormed(ids);
  }

  lemma ParseTrimmed(raw: string)
    requires raw != [] && IsTrimmed(raw)
    ensures ParseChains(Some(raw)) == NormalizeChainIds(Split(raw, ','))
  {
    TrimOfTrimmed(raw);
  }

  lemma JoinTrimmed(ids: seq<string>)
    requires |ids| > 0
    requires forall i :: 0 <= i < |ids| ==> IsChainId(ids[i])
    ensures Join(ids, ',') != [] && IsTrimmed(Join(ids, ','))
  {
  }

  /** The `pairType` parameter, `"all"` when absent or empty. */
  function ResolvePairType(param: Option<string>): (t: string)
    ensures t != []
    ensures param.Some? && param.value != [] ==> t == param.value
    ensures param.None? || param.value == [] ==> t == AllTypes
  {
    if param.Some? && param.value != [] then param.value else AllTypes
  }

  /** The route's query parameters; the two thresholds are already parsed
      numbers. */
  datatype Query = Query(
    query: Option<string>,
    chains: Option<string>,
    minLiquidity: real,
    minVolume: real,
    pairType: Option<string>)

  /** The criteria the filter callback closes over. */
  datatype Filters = Filters(chainIds: seq<string>, minLiquidity: real, minVolume: real, pairType: string)

  function FiltersOf(q: Query): Filters {
    Filters(ParseChains(q.chains), q.minLiquidity, q.minVolume, ResolvePairType(q.pairType))
  }

  /** `pair?.chainId` is truthy: present and not the empty string. */
  predicate HasChain(p: DexPair) {
    p.chainId.Some? && p.chainId.value != []
  }

  /** The callback of `pairs.filter`; a threshold of 0 is falsy and so
      switched off. */
  predicate Keep(f: Filters, p: DexPair) {
    && HasChain(p)
    && (|f.chainIds| == 0 || Lower(p.chainId.value) in f.chainIds)
    && (f.minLiquidity == 0.0 || LiquidityUsd(p) >= f.minLiquidity)
    && (f.minVolume == 0.0 || Volume24h(p) >= f.minVolume)
    && (f.pairType == AllTypes || Classify(BaseSymbol(p), QuoteSymbol(p)).Name() == f.pairType)
  }

  /** `pairs.filter(keep)` */
  function FilterPairs(ps: seq<DexPair>, f: Filters): (r: seq<DexPair>)
    ensures Subsequence(r, ps)
    ensures forall i :: 0 <= i < |r| ==> Keep(f, r[i])
    decreases |ps|
  {
    if |ps| == 0 then []
    else
      var rest := FilterPairs(ps[1..], f);
      assert ps == [ps[0]] + ps[1..];
      if Keep(f, ps[0]) then
        assert ([ps[0]] + rest)[1..] == rest;
        [ps[0]] + rest
      else
        SubsequenceCons(rest, ps[0], ps[1..]);
        rest
  }

  /** Every pair that passes the callback is kept. */
  lemma {:induction false} FilterComplete(ps: seq<DexPair>, f: Filters)
    ensures forall i :: 0 <= i < |ps| && Keep(f, ps[i]) ==> ps[i] in FilterPairs(ps, f)
    decreases |ps|
  {
    if |ps| > 0 {
      FilterComplete(ps[1..], f);
      assert forall i :: 1 <= i < |ps| ==> ps[i] == ps[1..][i - 1];
    }
  }

  lemma {:induction false} FilterAppend(a: seq<DexPair>, b: seq<DexPair>, f: Filters)
    ensures FilterPairs(a + b, f) == FilterPairs(a, f) + FilterPairs(b, f)
    decreases |a|
  {
    if |a| == 0 {
      assert a + b == b;
    } else {
      FilterAppend(a[1..], b, f);
      assert (a + b)[0] == a[0] && (a + b)[1..] == a[1..] + b;
    }
  }

  /** The pairs the route answers with: `pairs.filter(keep).slice(0, 60)`. */
  function Screen(ps: seq<DexPair>, q: Query): (r: seq<DexPair>)
    ensures |r| <= MaxResults && |r| <= |ps|
    ensures Subsequence(r, ps)
    ensures forall i :: 0 <= i < |r| ==> HasChain(r[i])
    ensures |ParseChains(q.chains)| > 0 ==>
      forall i :: 0 <= i < |r| ==> HasChain(r[i]) && Lower(r[i].chainId.value) in ParseChains(q.chains)
    ensures q.minLiquidity != 0.0 ==> forall i :: 0 <= i < |r| ==> LiquidityUsd(r[i]) >= q.minLiquidity
    ensures q.minVolume != 0.0 ==> forall i :: 0 <= i < |r| ==> Volume24h(r[i]) >= q.minVolume
    ensures ResolvePairType(q.pairType) != AllTypes ==>
      forall i :: 0 <= i < |r| ==> Classify(BaseSymbol(r[i]), QuoteSymbol(r[i])).Name() == ResolvePairType(q.pairType)
  {
    var kept := FilterPairs(ps, FiltersOf(q));
    var r := Take(kept, MaxResults);
    SubsequencePrefix(kept, ps, |r|);
    assert r == kept[..|r|];
    SubsequenceMembers(r, ps);
    r
  }

  /** Completeness: a pair that passes the filters and has fewer than 60
      passing pairs before it is in the answer, at the position given by
      the number of passing pairs before it. */
  lemma ScreenKeepsEarlyMatches(ps: seq<DexPair>, q: Query, i: nat)
    requires i < |ps|
    requires Keep(FiltersOf(q), ps[i])
    requires |FilterPairs(ps[..i], FiltersOf(q))| < MaxResults
    ensures |FilterPairs(ps[..i], FiltersOf(q))| < |Screen(ps, q)|
    ensures Screen(ps, q)[|FilterPairs(ps[..i], FiltersOf(q))|] == ps[i]
  {
    ScreenTakes(ps, q);
    FilterKeepsAtRank(ps, FiltersOf(q), i);
  }

  /** A passing pair sits in the filtered list at the number of passing
      pairs before it. */
  lemma FilterKeepsAtRank(ps: seq<DexPair>, f: Filters, i: nat)
    requires i < |ps|
    requires Keep(f, ps[i])
    ensures |FilterPairs(ps[..i], f)| < |FilterPairs(ps, f)|
    ensures FilterPairs(ps, f)[|FilterPairs(ps[..i], f)|] == ps[i]
  {
    var before := FilterPairs(ps[..i], f);
    assert ps == ps[..i] + ps[i..];
    FilterAppend(ps[..i], ps[i..], f);
    assert ps[i..] == [ps[i]] + ps[i + 1..];
    assert FilterPairs(ps[i..], f) == [ps[i]] + FilterPairs(ps[i + 1..], f);
  }

  lemma ScreenTakes(ps: seq<DexPair>, q: Query)
    ensures Screen(ps, q) == Take(FilterPairs(ps, FiltersOf(q)), MaxResults)
  {
  }

  /** No filter set and every pair on a chain: the first 60 pairs, as they
      came. */
  lemma {:induction false} ScreenDefaults(ps: seq<DexPair>, q: Query)
    requires q.chains.None? && q.minLiquidity == 0.0 && q.minVolume == 0.0 && q.pairType.None?
    requires forall i :: 0 <= i < |ps| ==> HasChain(ps[i])
    ensures Screen(ps, q) == Take(ps, MaxResults)
  {
    KeepAll(ps, FiltersOf(q));
  }

  lemma {:induction false} KeepAll(ps: seq<DexPair>, f: Filters)
    requires f.chainIds == [] && f.minLiquidity == 0.0 && f.minVolume == 0.0 && f.pairType == AllTypes
    requires forall i :: 0 <= i < |ps| ==> HasChain(ps[i])
    ensures FilterPairs(ps, f) == ps
    decreases |ps|
  {
    if |ps| > 0 {
      KeepAll(ps[1..], f);
      assert [ps[0]] + ps[1..] == ps;
    }
  }

  /** A `pairType` that names no category rejects every pair. */
  lemma UnknownPairTypeRejectsAll(ps: seq<DexPair>, q: Query)
    requires q.pairType.Some?
    requires q.pairType.value !in {"", "all", "stable", "meme", "volatile"}
    ensures Screen(ps, q) == []
  {
  }

  /** A zero liquidity threshold lets every liquidity through, absent ones
      included. */
  lemma ZeroLiquidityIgnoresLiquidity(f: Filters, p: DexPair, l: Option<Liquidity>)
    requires f.minLiquidity == 0.0
    ensures Keep(f, p) <==> Keep(f, p.(liquidity := l))
  {
  }

  /** A zero volume threshold lets every volume through, absent ones
      included. */
  lemma ZeroVolumeIgnoresVolume(f: Filters, p: DexPair, v: Option<Windows>)
    requires f.minVolume == 0.0
    ensures Keep(f, p) <==> Keep(f, p.(volume := v))
  {
  }

  /** The chain allow-list ignores the case of the pair's chain id. */
  lemma ChainCaseInsensitive(f: Filters, p: DexPair, c1: string, c2: string)
    requires Lower(c1) == Lower(c2)
    ensures Keep(f, p.(chainId := Some(c1))) <==> Keep(f, p.(chainId := Some(c2)))
  {
  }

  /** `"all"` imposes no category: whatever the two tokens, the category
      filter never rejects. */
  lemma AllTypesKeepsEveryCategory(f: Filters, p: DexPair, base: Option<Token>, quote: Option<Token>)
    requires f.pairType == AllTypes
    ensures Keep(f, p) <==> Keep(f, p.(baseToken := base, quoteToken := quote))
  {
  }

  /** Mixed case and stray spaces in the pieces of the `chains` parameter
      are cleaned up. */
  lemma NormalizeExample()
    ensures NormalizeChainIds(["Ethereum", " BSC"]) == ["ethereum", "bsc"]
  {
    assert ["Ethereum", " BSC"] == ["Ethereum"] + [" BSC"];
    NormalizeAppend(["Ethereum"], [" BSC"]);
    ChainIdExamples();
    NormalizeSingle("Ethereum");
    NormalizeSingle(" BSC");
  }

  lemma ChainIdExamples()
    ensures NormalizeChainId("Ethereum") == "ethereum"
    ensures NormalizeChainId(" BSC") == "bsc"
  {
    TrimOfTrimmed("Ethereum");
    assert Lower("Ethereum") == "ethereum";
    TrimLeadingExample();
    assert Lower("BSC") == "bsc";
  }

  lemma TrimLeadingExample()
    ensures Trim(" BSC") == "BSC"
  {
  }

  /** A pair with $50 of liquidity fails a $100 threshold and passes a
      zero one. */
  lemma LiquidityThresholdExample(p: DexPair)
    requires HasChain(p)
    requires p.liquidity == Some(Liquidity(Some(50.0), None, None))
    ensures Screen([p], Query(None, None, 100.0, 0.0, None)) == []
    ensures Screen([p], Query(None, None, 0.0, 0.0, None)) == [p]
  {
  }
}
