/** The per-row display rules of the markets table: the activity chip, the
    colour of the 24h change and the highlighted row. */
module PairTable {
  import opened Optional
  import opened Pairs

  datatype Chip = Institutional | Hot {
    function Label(): string {
      match this
      case Institutional => "Institucional"
      case Hot => "Caliente"
    }
  }

  const InstitutionalVolume: real := 5000000.0
  const HotTxns: real := 1500.0

  /** `getActivityChip(pair)`: a big 24h volume first, then a busy 24h
      transaction count, else no chip. */
  function ActivityChip(p: DexPair): (chip: Option<Chip>)
    ensures chip == Some(Institutional) <==> Volume24h(p) > InstitutionalVolume
    ensures chip == Some(Hot) <==> Volume24h(p) <= InstitutionalVolume && Txns24h(p) > HotTxns
    ensures chip.None? <==> Volume24h(p) <= InstitutionalVolume && Txns24h(p) <= HotTxns
  {
    var volume := Volume24h(p);
    var txns := Txns24h(p);
    if volume > InstitutionalVolume then Some(Institutional)
    else if txns > HotTxns then Some(Hot)
    else None
  }

  /** How prominent a chip is: none, hot, institutional. */
  function ChipRank(chip: Option<Chip>): nat {
    match chip
    case None => 0
    case Some(Hot) => 1
    case Some(Institutional) => 2
  }

  /** More volume and more transactions never demote a pair's chip. */
  lemma ChipMonotone(p: DexPair, q: DexPair)
    requires Volume24h(p) <= Volume24h(q) && Txns24h(p) <= Txns24h(q)
    ensures ChipRank(ActivityChip(p)) <= ChipRank(ActivityChip(q))
  {
  }

  /** The thresholds are strict, and absent figures count as 0. */
  lemma ChipBoundaries(p: DexPair)
    ensures Volume24h(p) == InstitutionalVolume && Txns24h(p) == HotTxns ==> ActivityChip(p).None?
    ensures p.volume.None? && p.txns.None? ==> ActivityChip(p).None?
  {
  }

  datatype Tone = Success | Danger | Neutral

  /** `x ? Number(x) : null`: absent and zero both become null. */
  function Truthy(x: Option<real>): (r: Option<real>)
    ensures r.Some? <==> x.Some? && x.value != 0.0
    ensures r.Some? ==> r == x
  {
    if x.Some? && x.value != 0.0 then x else None
  }

  /** `c && c > 0 ? success : c && c < 0 ? danger : neutral` */
  function ChangeTone(change: Option<real>): (t: Tone)
    ensures t == Success <==> change.Some? && change.value > 0.0
    ensures t == Danger <==> change.Some? && change.value < 0.0
    ensures t == Neutral <==> change.None? || change.value == 0.0
  {
    if change.Some? && change.value != 0.0 && change.value > 0.0 then Success
    else if change.Some? && change.value != 0.0 && change.value < 0.0 then Danger
    else Neutral
  }

  function Negate(x: Option<real>): Option<real> {
    if x.Some? then Some(-x.value) else None
  }

  function Mirror(t: Tone): Tone {
    match t
    case Success => Danger
    case Danger => Success
    case Neutral => Neutral
  }

  /** A change and its opposite get opposite tones. */
  lemma ToneMirror(x: Option<real>)
    ensures ChangeTone(Negate(x)) == Mirror(ChangeTone(x))
  {
  }

  /** Nulling a zero change does not alter its tone. */
  lemma ToneIgnoresCoercion(x: Option<real>)
    ensures ChangeTone(Truthy(x)) == ChangeTone(x)
  {
  }

  /** The tone of a row's 24h change cell. */
  function RowTone(p: DexPair): (t: Tone)
    ensures t == Success <==> Change24h(p).Some? && Change24h(p).value > 0.0
    ensures t == Danger <==> Change24h(p).Some? && Change24h(p).value < 0.0
    ensures t == Neutral <==> Change24h(p).None? || Change24h(p).value == 0.0
  {
    ChangeTone(Truthy(Change24h(p)))
  }

  /** `selectedPairAddress === pair.pairAddress`; no selection highlights
      nothing. */
  predicate IsSelected(selectedAddress: Option<string>, p: DexPair) {
    selectedAddress == Some(p.pairAddress)
  }

  /** When no two rows share an address, at most one row is highlighted. */
  lemma AtMostOneSelected(selectedAddress: Option<string>, ps: seq<DexPair>, i: nat, j: nat)
    requires forall a, b :: 0 <= a < b < |ps| ==> ps[a].pairAddress != ps[b].pairAddress
    requires i < |ps| && j < |ps|
    requires IsSelected(selectedAddress, ps[i]) && IsSelected(selectedAddress, ps[j])
    ensures i == j
  {
  }
}
