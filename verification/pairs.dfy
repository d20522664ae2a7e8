/** The trading-pair record returned by the market-data search, with every
    field the dashboard reads through `?.` or `??` made optional. */
module Pairs {
  import opened Optional

  datatype Token = Token(address: string, symbol: Option<string>, name: string)

  /** Percentage price changes over rolling windows. */
  datatype PriceChange = PriceChange(
    m5: Option<real>, h1: Option<real>, h6: Option<real>, h24: Option<real>)

  /** Transaction counts or traded USD volume over rolling windows. */
  datatype Windows = Windows(h24: Option<real>, h6: Option<real>, h1: Option<real>)

  datatype Liquidity = Liquidity(usd: Option<real>, base: Option<real>, quote: Option<real>)

  datatype Info = Info(imageUrl: Option<string>, websites: seq<string>, socials: seq<string>)

  /** One market: a token pair on a venue (`dexId`) of a chain. */
  datatype DexPair = DexPair(
    chainId: Option<string>,
    dexId: string,
    url: string,
    pairAddress: string,
    baseToken: Option<Token>,
    quoteToken: Option<Token>,
    priceUsd: Option<real>,
    priceNative: Option<real>,
    priceChange: Option<PriceChange>,
    txns: Option<Windows>,
    volume: Option<Windows>,
    liquidity: Option<Liquidity>,
    fdv: Option<real>,
    pairCreatedAt: Option<int>,
    info: Option<Info>)

  /** A point of a pair's price/volume history; `timestamp` is in ms. */
  datatype SeriesPoint = SeriesPoint(timestamp: int, priceUsd: real, volumeUsd: real)

  function SymbolOf(token: Option<Token>): string {
    match token
    case Some(t) => t.symbol.OrElse("")
    case None => ""
  }

  /** `pair.baseToken?.symbol ?? ""` */
  function BaseSymbol(p: DexPair): string {
    SymbolOf(p.baseToken)
  }

  /** `pair.quoteToken?.symbol ?? ""` */
  function QuoteSymbol(p: DexPair): string {
    SymbolOf(p.quoteToken)
  }

  function Day(w: Option<Windows>): real {
    match w
    case Some(x) => x.h24.OrElse(0.0)
    case None => 0.0
  }

  /** `pair.liquidity?.usd ?? 0` */
  function LiquidityUsd(p: DexPair): real {
    match p.liquidity
    case Some(l) => l.usd.OrElse(0.0)
    case None => 0.0
  }

  /** `pair.volume?.h24 ?? 0` */
  function Volume24h(p: DexPair): real {
    Day(p.volume)
  }

  /** `pair.txns?.h24 ?? 0` */
  function Txns24h(p: DexPair): real {
    Day(p.txns)
  }

  /** `pair.priceChange?.h1` */
  function Change1h(p: DexPair): Option<real> {
    if p.priceChange.Some? then p.priceChange.value.h1 else None
  }

  /** `pair.priceChange?.h6` */
  function Change6h(p: DexPair): Option<real> {
    if p.priceChange.Some? then p.priceChange.value.h6 else None
  }

  /** `pair.priceChange?.h24` */
  function Change24h(p: DexPair): Option<real> {
    if p.priceChange.Some? then p.priceChange.value.h24 else None
  }
}
