/** The figures of the pair detail panel: the latest point of the history,
    the volume of its last eight points, and the price and change cells. */
module PairDetail {
  import opened Optional
  import opened Seqs
  import opened Pairs
  import opened PairTable

  const VolumeWindow: nat := 8

  /** `series.slice(-8)`: the last eight points, or all of them when
      there are fewer. */
  function LastPoints(s: seq<SeriesPoint>): (w: seq<SeriesPoint>)
    ensures |w| == if |s| < VolumeWindow then |s| else VolumeWindow
    ensures s == s[..|s| - |w|] + w
  {
    if |s| <= VolumeWindow then s else s[|s| - VolumeWindow..]
  }

  function Volumes(s: seq<SeriesPoint>): (v: seq<real>)
    ensures |v| == |s|
  {
    seq(|s|, i requires 0 <= i < |s| => s[i].volumeUsd)
  }

  /** The `latestVolume` memo. */
  function LatestVolume(series: Option<seq<SeriesPoint>>): (v: real)
    ensures series.None? || |series.value| == 0 ==> v == 0.0
    ensures series.Some? && |series.value| <= VolumeWindow ==> v == Sum(Volumes(series.value))
  {
    if series.None? || |series.value| == 0 then 0.0
    else Sum(Volumes(LastPoints(series.value)))
  }

  /** The whole volume is the volume before the window plus the window's. */
  lemma LatestVolumeSplit(s: seq<SeriesPoint>)
    ensures Sum(Volumes(s)) == Sum(Volumes(s[..|s| - |LastPoints(s)|])) + LatestVolume(Some(s))
  {
    var w := LastPoints(s);
    var before := s[..|s| - |w|];
    assert Volumes(s) == Volumes(before) + Volumes(w);
    SumAppend(Volumes(before), Volumes(w));
  }

  /** With no negative volume the window total is between 0 and the
      total of the whole history. */
  lemma LatestVolumeBounds(s: seq<SeriesPoint>)
    requires NonNegative(Volumes(s))
    ensures 0.0 <= LatestVolume(Some(s)) <= Sum(Volumes(s))
  {
    var w := LastPoints(s);
    var before := s[..|s| - |w|];
    LatestVolumeSplit(s);
    assert NonNegative(Volumes(before)) by {
      forall i | 0 <= i < |before| ensures Volumes(before)[i] >= 0.0 {
        assert before[i] == s[i];
        assert Volumes(s)[i] >= 0.0;
      }
    }
    assert NonNegative(Volumes(w)) by {
      forall i | 0 <= i < |w| ensures Volumes(w)[i] >= 0.0 {
        assert w[i] == s[|before| + i];
        assert Volumes(s)[|before| + i] >= 0.0;
      }
    }
    SumNonNegative(Volumes(before));
    SumNonNegative(Volumes(w));
  }

  /** A point appended to a long history pushes the oldest point of the
      window out. */
  lemma LatestVolumeSlides(s: seq<SeriesPoint>, x: SeriesPoint)
    requires |s| >= VolumeWindow
    ensures LatestVolume(Some(s + [x])) + s[|s| - VolumeWindow].volumeUsd
         == LatestVolume(Some(s)) + x.volumeUsd
  {
    var before := s[|s| - VolumeWindow..];
    var after := (s + [x])[|s| + 1 - VolumeWindow..];
    assert before == [before[0]] + before[1..];
    assert after == before[1..] + [x];
    assert Volumes(before) == [before[0].volumeUsd] + Volumes(before[1..]);
    assert Volumes(after) == Volumes(before[1..]) + [x.volumeUsd];
    SumAppend([before[0].volumeUsd], Volumes(before[1..]));
    SumAppend(Volumes(before[1..]), [x.volumeUsd]);
  }

  /** `timeseries?.[timeseries.length - 1]` */
  function LatestPoint(series: Option<seq<SeriesPoint>>): (p: Option<SeriesPoint>)
    ensures p.None? <==> series.None? || |series.value| == 0
    ensures p.Some? ==> p.value in series.value
  {
    if series.None? || |series.value| == 0 then None
    else Some(series.value[|series.value| - 1])
  }

  /** The point appended last is the latest one. */
  lemma LatestPointAppend(s: seq<SeriesPoint>, x: SeriesPoint)
    ensures LatestPoint(Some(s + [x])) == Some(x)
  {
  }

  datatype Figures = Figures(price: Option<real>, change1h: Option<real>, change6h: Option<real>, change24h: Option<real>)

  /** The price and change cells of the panel: absent or zero is shown as
      null. */
  function DetailFigures(p: DexPair): (f: Figures)
    ensures f.price.Some? <==> p.priceUsd.Some? && p.priceUsd.value != 0.0
    ensures f.change1h.Some? <==> Change1h(p).Some? && Change1h(p).value != 0.0
    ensures f.change6h.Some? <==> Change6h(p).Some? && Change6h(p).value != 0.0
    ensures f.change24h.Some? <==> Change24h(p).Some? && Change24h(p).value != 0.0
    ensures f.price.Some? ==> f.price == p.priceUsd
    ensures f.change1h.Some? ==> f.change1h == Change1h(p)
    ensures f.change6h.Some? ==> f.change6h == Change6h(p)
    ensures f.change24h.Some? ==> f.change24h == Change24h(p)
  {
    Figures(Truthy(p.priceUsd), Truthy(Change1h(p)), Truthy(Change6h(p)), Truthy(Change24h(p)))
  }

  /** The tones of the three change cells. */
  function DetailTones(p: DexPair): (tones: (Tone, Tone, Tone))
    ensures tones.0 == Success <==> Change1h(p).Some? && Change1h(p).value > 0.0
    ensures tones.0 == Danger <==> Change1h(p).Some? && Change1h(p).value < 0.0
    ensures tones.0 == Neutral <==> Change1h(p).None? || Change1h(p).value == 0.0
    ensures tones.1 == Success <==> Change6h(p).Some? && Change6h(p).value > 0.0
    ensures tones.1 == Danger <==> Change6h(p).Some? && Change6h(p).value < 0.0
    ensures tones.1 == Neutral <==> Change6h(p).None? || Change6h(p).value == 0.0
    ensures tones.2 == Success <==> Change24h(p).Some? && Change24h(p).value > 0.0
    ensures tones.2 == Danger <==> Change24h(p).Some? && Change24h(p).value < 0.0
    ensures tones.2 == Neutral <==> Change24h(p).None? || Change24h(p).value == 0.0
  {
    var f := DetailFigures(p);
    (ChangeTone(f.change1h), ChangeTone(f.change6h), ChangeTone(f.change24h))
  }

  /** The panel puts the 24h change in the same tone category as the
      table row. */
  lemma DetailAgreesWithTable(p: DexPair)
    ensures DetailTones(p).2 == RowTone(p)
  {
  }
}
