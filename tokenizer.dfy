/**
 * The token estimators: their persisted spelling (`Display` and `FromStr`), the label the
 * settings menu shows, and the token estimate of a text. The cl100k byte-pair encoder is
 * a foreign library; its token count enters as the parameter `cl100kCount`.
 */
module Tokenizer {
  import opened Wrappers

  datatype TokenEstimator = CharDiv4 | Cl100k | Llama2 | SentencePiece

  /** The estimator a fresh configuration uses (`Default`). */
  const DefaultEstimator: TokenEstimator := CharDiv4

  /** `Display`: the variant's own name, which is also how settings and caches store it. */
  function ToString(e: TokenEstimator): string {
    match e
    case CharDiv4 => "CharDiv4"
    case Cl100k => "Cl100k"
    case Llama2 => "Llama2"
    case SentencePiece => "SentencePiece"
  }

  /** `FromStr`: exactly the four display names parse; anything else is reported back. */
  function FromStr(s: string): Result<TokenEstimator, string> {
    if s == "CharDiv4" then Ok(CharDiv4)
    else if s == "Cl100k" then Ok(Cl100k)
    else if s == "Llama2" then Ok(Llama2)
    else if s == "SentencePiece" then Ok(SentencePiece)
    else Err("Unknown token estimator: " + s)
  }

  /** The human-readable label of an estimator. */
  function Name(e: TokenEstimator): string {
    match e
    case CharDiv4 => "Char/4 heuristic"
    case Cl100k => "GPT-3/4 (cl100k)"
    case Llama2 => "Llama2 BPE"
    case SentencePiece => "Gemini SentencePiece"
  }

  /**
   * `estimate_tokens`: the number of characters (Unicode scalar values, which is what a
   * Dafny `char` is) divided by four, rounding down, except for cl100k, which counts the
   * encoder's tokens. The Llama2 and SentencePiece estimators fall back to the heuristic.
   */
  function EstimateTokens(e: TokenEstimator, text: string, cl100kCount: string -> nat): (r: nat)
    ensures e != Cl100k ==> 4 * r <= |text| < 4 * r + 4
    ensures e == Cl100k ==> r == cl100kCount(text)
  {
    match e
    case Cl100k => cl100kCount(text)
    case _ => |text| / 4
  }

  // ---------------------------------------------------------------------------
  // Properties
  // ---------------------------------------------------------------------------

  /** Every estimator survives being written out and read back. */
  lemma FromStrOfToString(e: TokenEstimator)
    ensures FromStr(ToString(e)) == Ok(e)
  {
  }

  /** Whatever parses is the display name of what it parses to; everything else is an error naming the input. */
  lemma FromStrAccepts(s: string)
    ensures FromStr(s).Ok? ==> ToString(FromStr(s).value) == s
    ensures FromStr(s).Err? <==> forall e: TokenEstimator :: ToString(e) != s
    ensures FromStr(s).Err? ==> FromStr(s).error == "Unknown token estimator: " + s
  {
    if FromStr(s).Err? {
      forall e: TokenEstimator ensures ToString(e) != s {
        FromStrOfToString(e);
      }
    }
  }

  /** No two estimators share a display name or a label. */
  lemma NamesAreDistinct(e1: TokenEstimator, e2: TokenEstimator)
    ensures ToString(e1) == ToString(e2) ==> e1 == e2
    ensures Name(e1) == Name(e2) ==> e1 == e2
  {
    FromStrOfToString(e1);
    FromStrOfToString(e2);
    if Name(e1) == Name(e2) {
      assert Name(e1)[0] == Name(e2)[0];
    }
  }

  /** The two placeholder estimators count exactly as the heuristic does. */
  lemma FallbacksMatchHeuristic(text: string, cl100kCount: string -> nat)
    ensures EstimateTokens(Llama2, text, cl100kCount) == EstimateTokens(CharDiv4, text, cl100kCount)
    ensures EstimateTokens(SentencePiece, text, cl100kCount) == EstimateTokens(CharDiv4, text, cl100kCount)
  {
  }

  /** The heuristic grows with the text and never counts more for pieces than for their whole. */
  lemma HeuristicMonotone(a: string, b: string, cl100kCount: string -> nat)
    ensures EstimateTokens(CharDiv4, a, cl100kCount) <= EstimateTokens(CharDiv4, a + b, cl100kCount)
    ensures EstimateTokens(CharDiv4, a, cl100kCount) + EstimateTokens(CharDiv4, b, cl100kCount)
            <= EstimateTokens(CharDiv4, a + b, cl100kCount)
  {
    var ra := EstimateTokens(CharDiv4, a, cl100kCount);
    var rb := EstimateTokens(CharDiv4, b, cl100kCount);
    var rab := EstimateTokens(CharDiv4, a + b, cl100kCount);
    assert 4 * (ra + rb) <= |a + b| < 4 * rab + 4;
  }

  lemma HeuristicExamples(cl100kCount: string -> nat)
    ensures EstimateTokens(CharDiv4, "Hello", cl100kCount) == 1
    ensures EstimateTokens(CharDiv4, "Hello World", cl100kCount) == 2
    ensures EstimateTokens(CharDiv4, "abc", cl100kCount) == 0
  {
  }
}
