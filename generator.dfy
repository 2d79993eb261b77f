/** The parts of the answer generator that are computed locally: token
    counting, the choice between a retrieval-based and a direct answer, and
    the heuristic answer-quality score. The chat model and the tokenizer are
    oracles. */
module Generator {
  import opened Wrappers
  import opened Text

  /** `count_tokens(text)`: the tokenizer's count, or a quarter of the
      length, rounded down, when the tokenizer raises (`None`). */
  function CountTokens(text: String, tokenizer: String -> Option<nat>): (n: nat)
    ensures tokenizer(text).Some? ==> n == tokenizer(text).value
    ensures tokenizer(text).None? ==> 4 * n <= |text| < 4 * n + 4
  {
    match tokenizer(text)
    case Some(count) => count
    case None => |text| / 4
  }

  /** The `response_type` of `generate_answer`. */
  datatype ResponseType = RagBased | DirectAnswer

  /** The prompt is built from the retrieved context exactly when the
      context has a character that is not whitespace. */
  function ResponseTypeFor(context: String): (r: ResponseType)
    ensures r == RagBased <==> exists i :: 0 <= i < |context| && !IsSpace(context[i])
  {
    StripEmpty(context);
    if Strip(context) != [] then RagBased else DirectAnswer
  }

  // ---------------------------------------------------------------------
  // evaluate_answer_quality
  // ---------------------------------------------------------------------

  /** Terms looked for in the lower-cased answer: chemical engineering,
      reaction, catalysis, process, temperature, pressure, separation,
      purification. */
  const TechnicalTerms: seq<String> := ["化工", "反应", "催化", "工艺", "温度", "压力", "分离", "纯化"]

  /** Markers of quantitative information. */
  const QuantitativeMarkers: seq<String> := ["%", "℃", "MPa", "mol", "kg"]

  /** Phrases admitting uncertainty: cannot be determined, not in the
      material, needs further study, not clear enough. */
  const UncertaintyPhrases: seq<String> := ["无法确定", "资料中没有", "需要进一步", "不够明确"]

  /** `any(x in s for x in needles)` */
  predicate AnyIn(s: String, needles: seq<String>) {
    exists k :: 0 <= k < |needles| && Contains(s, needles[k])
  }

  datatype Assessment = Good | Fair | Poor

  /** The `assessment` for a score. */
  function AssessmentOf(score: int): (a: Assessment)
    ensures a == Good <==> score >= 70
    ensures a == Fair <==> 40 <= score < 70
    ensures a == Poor <==> score < 40
  {
    if score >= 70 then Good else if score >= 40 then Fair else Poor
  }

  /** What `evaluate_answer_quality` reports. */
  datatype Quality = Quality(qualityScore: int, answerLength: nat, answerTokens: nat,
                             hasTechnicalTerms: bool, hasQuantitativeInfo: bool,
                             acknowledgesUncertainty: bool, contextBased: bool, assessment: Assessment)

  function Points(holds: bool, weight: nat): nat {
    if holds then weight else 0
  }

  /** `evaluate_answer_quality(question, answer, context)`: 20 points for an
      answer longer than 50 characters, 30 for a technical term, 25 for
      quantitative information and 25 for a non-blank context, capped at
      100. */
  function EvaluateAnswerQuality(question: String, answer: String, context: String,
                                 tokenizer: String -> Option<nat>): (q: Quality)
    ensures 0 <= q.qualityScore <= 100
    ensures q.assessment == AssessmentOf(q.qualityScore)
    ensures q.answerLength == |answer| && q.answerTokens == CountTokens(answer, tokenizer)
  {
    var answerLength := |answer|;
    var hasTechnicalTerms := AnyIn(Lower(answer), TechnicalTerms);
    var hasQuantitativeInfo := AnyIn(answer, QuantitativeMarkers);
    var acknowledgesUncertainty := AnyIn(answer, UncertaintyPhrases);
    var contextBased := Strip(context) != [];
    var score := Points(answerLength > 50, 20) + Points(hasTechnicalTerms, 30)
      + Points(hasQuantitativeInfo, 25) + Points(contextBased, 25);
    var qualityScore := if score < 100 then score else 100;
    Quality(qualityScore, answerLength, CountTokens(answer, tokenizer), hasTechnicalTerms,
            hasQuantitativeInfo, acknowledgesUncertainty, contextBased, AssessmentOf(qualityScore))
  }

  /** How many of the four scored indicators an evaluation found. */
  function Indicators(q: Quality): nat {
    Points(q.answerLength > 50, 1) + Points(q.hasTechnicalTerms, 1)
      + Points(q.hasQuantitativeInfo, 1) + Points(q.contextBased, 1)
  }

  /** The assessment only counts indicators: 'good' takes three of the four,
      'fair' exactly two, and one or none is 'poor'. The full score is
      reached exactly when all four hold, and the cap of 100 never cuts a
      score down. */
  lemma AssessmentByIndicators(question: String, answer: String, context: String,
                               tokenizer: String -> Option<nat>)
    ensures var q := EvaluateAnswerQuality(question, answer, context, tokenizer);
      && (q.assessment == Good <==> Indicators(q) >= 3)
      && (q.assessment == Fair <==> Indicators(q) == 2)
      && (q.assessment == Poor <==> Indicators(q) <= 1)
      && (q.qualityScore == 100 <==> Indicators(q) == 4)
      && (q.qualityScore == 0 <==> Indicators(q) == 0)
  {
  }

  /** The context counts toward the score exactly when the answer was
      generated from it. */
  lemma ContextBasedIsRag(question: String, answer: String, context: String,
                          tokenizer: String -> Option<nat>)
    ensures EvaluateAnswerQuality(question, answer, context, tokenizer).contextBased
      <==> ResponseTypeFor(context) == RagBased
  {
    StripEmpty(context);
  }

  /** Admitting uncertainty is reported but never scored: two evaluations
      that agree on the four scored indicators get the same score and
      assessment, whatever their uncertainty flags, questions, token counts
      and exact lengths. */
  lemma UncertaintyNotScored(question1: String, answer1: String, context1: String,
                             question2: String, answer2: String, context2: String,
                             tokenizer: String -> Option<nat>)
    requires var q1 := EvaluateAnswerQuality(question1, answer1, context1, tokenizer);
      var q2 := EvaluateAnswerQuality(question2, answer2, context2, tokenizer);
      && (|answer1| > 50 <==> |answer2| > 50)
      && q1.hasTechnicalTerms == q2.hasTechnicalTerms
      && q1.hasQuantitativeInfo == q2.hasQuantitativeInfo
      && q1.contextBased == q2.contextBased
    ensures var q1 := EvaluateAnswerQuality(question1, answer1, context1, tokenizer);
      var q2 := EvaluateAnswerQuality(question2, answer2, context2, tokenizer);
      q1.qualityScore == q2.qualityScore && q1.assessment == q2.assessment
  {
  }
}
