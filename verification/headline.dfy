/** The four headline figures of the dashboard page, computed from the
    pairs the search returned. */
module Headline {
  import opened Optional
  import opened Seqs
  import opened Pairs

  datatype Metrics = Metrics(totalLiquidity: real, totalVolume: real, avgTxns: real, uniqueDexes: nat)

  /** `liquidity.usd` of each pair, absent as 0. */
  function LiquidityColumn(ps: seq<DexPair>): seq<real> {
    seq(|ps|, i requires 0 <= i < |ps| => LiquidityUsd(ps[i]))
  }

  /** `volume.h24` of each pair, absent as 0. */
  function VolumeColumn(ps: seq<DexPair>): seq<real> {
    seq(|ps|, i requires 0 <= i < |ps| => Volume24h(ps[i]))
  }

  /** `txns.h24` of each pair, absent as 0. */
  function TxnsColumn(ps: seq<DexPair>): seq<real> {
    seq(|ps|, i requires 0 <= i < |ps| => Txns24h(ps[i]))
  }

  /** `new Set(pairs.map((pair) => pair.dexId))` */
  function DexIds(ps: seq<DexPair>): set<string> {
    set i | 0 <= i < |ps| :: ps[i].dexId
  }

  /** No venue occurs twice. */
  ghost predicate DistinctDexes(ps: seq<DexPair>) {
    forall i, j :: 0 <= i < j < |ps| ==> ps[i].dexId != ps[j].dexId
  }

  lemma DexIdsSnoc(ps: seq<DexPair>)
    requires |ps| > 0
    ensures DexIds(ps) == DexIds(ps[..|ps| - 1]) + {ps[|ps| - 1].dexId}
  {
  }

  /** A list has no repeated venue exactly when its front has none and
      its last venue is new. */
  lemma DistinctSnoc(ps: seq<DexPair>)
    requires |ps| > 0
    ensures DistinctDexes(ps) <==>
      DistinctDexes(ps[..|ps| - 1]) && ps[|ps| - 1].dexId !in DexIds(ps[..|ps| - 1])
  {
    var init := ps[..|ps| - 1];
    var d := ps[|ps| - 1].dexId;
    assert forall i :: 0 <= i < |init| ==> init[i] == ps[i];
    if d in DexIds(init) {
      var j :| 0 <= j < |init| && init[j].dexId == d;
      assert ps[j].dexId == ps[|ps| - 1].dexId;
    }
    if DistinctDexes(init) && d !in DexIds(init) {
      forall i, j | 0 <= i < j < |ps|
        ensures ps[i].dexId != ps[j].dexId
      {
        if j == |ps| - 1 {
          assert ps[i].dexId in DexIds(init);
        }
      }
    }
  }

  /** There is at least one and at most one venue per pair, and exactly
      one per pair when no venue repeats. */
  lemma {:induction false} DexIdsCount(ps: seq<DexPair>)
    ensures |DexIds(ps)| <= |ps|
    ensures |ps| > 0 ==> |DexIds(ps)| >= 1
    ensures |DexIds(ps)| == |ps| <==> DistinctDexes(ps)
    decreases |ps|
  {
    if |ps| == 0 {
      assert DexIds(ps) == {};
    } else {
      var init := ps[..|ps| - 1];
      var d := ps[|ps| - 1].dexId;
      DexIdsCount(init);
      DexIdsSnoc(ps);
      DistinctSnoc(ps);
      if d in DexIds(init) {
        assert DexIds(ps) == DexIds(init);
      } else {
        assert |DexIds(ps)| == |DexIds(init)| + 1;
      }
    }
  }

  /** The `headlineMetrics` memo of the page. */
  function HeadlineMetrics(ps: seq<DexPair>): (m: Metrics)
    ensures |ps| == 0 ==> m == Metrics(0.0, 0.0, 0.0, 0)
    ensures |ps| > 0 ==> m.avgTxns * (|ps| as real) == Sum(TxnsColumn(ps))
    ensures |ps| > 0 ==> 1 <= m.uniqueDexes <= |ps|
    ensures m.uniqueDexes == |ps| <==> DistinctDexes(ps)
  {
    DexIdsCount(ps);
    if |ps| == 0 then Metrics(0.0, 0.0, 0.0, 0)
    else
      var n := if |ps| > 1 then |ps| else 1;
      Metrics(
        Sum(LiquidityColumn(ps)),
        Sum(VolumeColumn(ps)),
        Sum(TxnsColumn(ps)) / (n as real),
        |DexIds(ps)|)
  }

  /** Some earlier pair is on venue `d`. */
  ghost predicate DexListed(ps: seq<DexPair>, d: string) {
    exists i :: 0 <= i < |ps| && ps[i].dexId == d
  }

  /** Appending a pair adds one venue exactly when its venue is new; with
      the empty list as the start this fixes the count as the number of
      distinct venues. */
  lemma UniqueDexesSnoc(ps: seq<DexPair>, p: DexPair)
    ensures HeadlineMetrics(ps + [p]).uniqueDexes
         == HeadlineMetrics(ps).uniqueDexes + (if DexListed(ps, p.dexId) then 0 else 1)
  {
    var qs := ps + [p];
    assert qs[..|qs| - 1] == ps;
    DexIdsSnoc(qs);
    if DexListed(ps, p.dexId) {
      var i :| 0 <= i < |ps| && ps[i].dexId == p.dexId;
      assert p.dexId in DexIds(ps);
    } else {
      assert p.dexId !in DexIds(ps);
    }
  }

  /** The totals of a concatenation are the sums of the totals. */
  lemma HeadlineAppend(ps: seq<DexPair>, qs: seq<DexPair>)
    ensures HeadlineMetrics(ps + qs).totalLiquidity
         == HeadlineMetrics(ps).totalLiquidity + HeadlineMetrics(qs).totalLiquidity
    ensures HeadlineMetrics(ps + qs).totalVolume
         == HeadlineMetrics(ps).totalVolume + HeadlineMetrics(qs).totalVolume
  {
    assert LiquidityColumn(ps + qs) == LiquidityColumn(ps) + LiquidityColumn(qs);
    assert VolumeColumn(ps + qs) == VolumeColumn(ps) + VolumeColumn(qs);
    SumAppend(LiquidityColumn(ps), LiquidityColumn(qs));
    SumAppend(VolumeColumn(ps), VolumeColumn(qs));
  }

  /** The totals do not depend on the order in which the pieces arrive. */
  lemma HeadlineSwap(ps: seq<DexPair>, qs: seq<DexPair>)
    ensures HeadlineMetrics(ps + qs).totalLiquidity == HeadlineMetrics(qs + ps).totalLiquidity
    ensures HeadlineMetrics(ps + qs).totalVolume == HeadlineMetrics(qs + ps).totalVolume
  {
    HeadlineAppend(ps, qs);
    HeadlineAppend(qs, ps);
  }

  /** The totals of one pair are its own figures, absent as 0. */
  lemma HeadlineSingle(p: DexPair)
    ensures HeadlineMetrics([p]) == Metrics(LiquidityUsd(p), Volume24h(p), Txns24h(p), 1)
  {
    assert [p][0] == p;
    assert p.dexId in DexIds([p]);
    assert DexIds([p]) == {p.dexId};
    assert LiquidityColumn([p])[1..] == [];
    assert VolumeColumn([p])[1..] == [];
    assert TxnsColumn([p])[1..] == [];
    assert Sum(LiquidityColumn([p])) == LiquidityUsd(p);
    assert Sum(VolumeColumn([p])) == Volume24h(p);
    assert Sum(TxnsColumn([p])) == Txns24h(p);
    assert |DexIds([p])| == 1;
  }

  /** With no negative liquidity, the total is at least every pair's own. */
  lemma TotalLiquidityBoundsEach(ps: seq<DexPair>, i: nat)
    requires i < |ps|
    requires NonNegative(LiquidityColumn(ps))
    ensures 0.0 <= LiquidityUsd(ps[i]) <= HeadlineMetrics(ps).totalLiquidity
  {
    var col := LiquidityColumn(ps);
    assert col == col[..i] + [col[i]] + col[i + 1..];
    SumAppend(col[..i] + [col[i]], col[i + 1..]);
    SumAppend(col[..i], [col[i]]);
    SumNonNegative(col[..i]);
    SumNonNegative(col[i + 1..]);
  }

  /** Two pairs with $100 and $200 of liquidity and nothing else known. */
  lemma TwoPairExample(p: DexPair, q: DexPair)
    requires p.liquidity == Some(Liquidity(Some(100.0), None, None)) && p.volume.None? && p.txns.None?
    requires q.liquidity == Some(Liquidity(Some(200.0), None, None)) && q.volume.None? && q.txns.None?
    ensures HeadlineMetrics([p, q]) == Metrics(300.0, 0.0, 0.0, if p.dexId == q.dexId then 1 else 2)
  {
    HeadlineAppend([p], [q]);
    HeadlineSingle(p);
    HeadlineSingle(q);
    assert [p] + [q] == [p, q];
    assert TxnsColumn([p, q]) == [0.0] + [0.0];
    SumAppend([0.0], [0.0]);
    assert Sum([0.0]) == 0.0 by { assert [0.0][1..] == []; }
    assert DexIds([p, q]) == {p.dexId, q.dexId} by {
      assert [p, q][0] == p && [p, q][1] == q;
    }
  }
}
