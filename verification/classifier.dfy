/** The pair classifier of the search route: a pair is `stable` when either
    symbol is a known stablecoin, else `meme` when either symbol contains a
    meme keyword, else `volatile`. */
module Classifier {
  import opened Text

  datatype Category = Stable | Meme | Volatile {
    /** The tag the route compares with its `pairType` parameter. */
    function Name(): string {
      match this
      case Stable => "stable"
      case Meme => "meme"
      case Volatile => "volatile"
    }
  }

  const StableSymbols: set<string> :=
    {"USDC", "USDT", "DAI", "BUSD", "USDD", "TUSD", "FRAX", "LUSD", "USD+"}

  const MemeKeywords: seq<string> := ["PEPE", "DOGE", "INU", "FLOKI", "SHIB", "WOJAK", "MEME"]

  /** `MEME_KEYWORDS.some(word => base.includes(word) || quote.includes(word))` */
  predicate HasMemeKeyword(upperBase: string, upperQuote: string) {
    exists w :: w in MemeKeywords && (Contains(upperBase, w) || Contains(upperQuote, w))
  }

  /** Some meme keyword occurs, at some position, in either symbol. */
  ghost predicate MemeOccurs(upperBase: string, upperQuote: string) {
    exists w, i :: w in MemeKeywords && (OccursAt(upperBase, w, i) || OccursAt(upperQuote, w, i))
  }

  lemma MemeKeywordOccurs(upperBase: string, upperQuote: string)
    ensures HasMemeKeyword(upperBase, upperQuote) <==> MemeOccurs(upperBase, upperQuote)
  {
    forall w | w in MemeKeywords
      ensures Contains(upperBase, w) <==> exists i :: OccursAt(upperBase, w, i)
      ensures Contains(upperQuote, w) <==> exists i :: OccursAt(upperQuote, w, i)
    {
      ContainsOccurs(upperBase, w);
      ContainsOccurs(upperQuote, w);
    }
  }

  /** Either upper-cased symbol is exactly a stablecoin symbol. */
  predicate IsStablePair(base: string, quote: string) {
    Upper(base) in StableSymbols || Upper(quote) in StableSymbols
  }

  /** `classifyPairType(baseSymbol, quoteSymbol)`. */
  function Classify(base: string, quote: string): (c: Category)
    ensures c == Stable <==> IsStablePair(base, quote)
    ensures c == Meme <==> !IsStablePair(base, quote) && MemeOccurs(Upper(base), Upper(quote))
    ensures c == Volatile <==> !IsStablePair(base, quote) && !MemeOccurs(Upper(base), Upper(quote))
  {
    var upperBase := Upper(base);
    var upperQuote := Upper(quote);
    MemeKeywordOccurs(upperBase, upperQuote);
    if upperBase in StableSymbols || upperQuote in StableSymbols then Stable
    else if HasMemeKeyword(upperBase, upperQuote) then Meme
    else Volatile
  }

  /** The stablecoin test wins over the meme test. */
  lemma StablePrecedence(base: string, quote: string)
    requires Upper(base) in StableSymbols || Upper(quote) in StableSymbols
    ensures Classify(base, quote) == Stable
  {
  }

  /** Only the upper-cased symbols matter. */
  lemma ClassifyCaseInsensitive(base: string, quote: string)
    ensures Classify(base, quote) == Classify(Upper(base), Upper(quote))
  {
    UpperIdempotent(base);
    UpperIdempotent(quote);
  }

  /** Swapping base and quote does not change the category. */
  lemma ClassifySymmetric(base: string, quote: string)
    ensures Classify(base, quote) == Classify(quote, base)
  {
  }

  /** A keyword in a non-stable pair makes it a meme pair. */
  lemma MemeKeywordMakesMeme(base: string, quote: string, w: string, i: int)
    requires !IsStablePair(base, quote)
    requires w in MemeKeywords
    requires OccursAt(Upper(base), w, i) || OccursAt(Upper(quote), w, i)
    ensures Classify(base, quote) == Meme
  {
  }

  lemma StableExamples()
    ensures Classify("usdc", "xyz") == Stable
    ensures Classify("PEPE", "USDT") == Stable
  {
    assert Upper("usdc") == "USDC";
    assert Upper("USDT") == "USDT";
  }

  lemma MemeExample()
    ensures Classify("ShibaCoin", "WETH") == Meme
  {
    assert Upper("ShibaCoin") == "SHIBACOIN";
    assert Upper("WETH") == "WETH";
    assert MemeKeywords[4] == "SHIB";
    assert OccursAt(Upper("ShibaCoin"), "SHIB", 0);
  }

  /** Symbols shorter than every stablecoin symbol and every keyword (all
      have at least three letters) are volatile. */
  lemma ShortSymbolsVolatile(base: string, quote: string)
    requires |base| < 3 && |quote| < 3
    ensures Classify(base, quote) == Volatile
  {
  }

  /** `OP` is neither a stablecoin nor a meme symbol. */
  lemma VolatileExample()
    ensures Classify("op", "") == Volatile
  {
  }
}
