/**
 * The orchestrator `TextAnalysisService` (app/services/text_analysis.py):
 * validate the text, run the enabled provider operations, assemble the
 * response.
 *
 * The three operations are awaited together in the source; here they run one
 * after another in task order (sentiment, keywords, summary).  Every enabled
 * operation is invoked; if any of them fails, the request fails with the
 * first failure in task order and no response is built.
 */
module TextAnalysis {

  import opened Wrappers
  import Sentiment
  import Summary
  import opened Providers
  import Text

  /** `SentimentResult` (app/schemas.py:17-19); `verdict` is the field `label`, a reserved word here. */
  datatype SentimentResult = SentimentResult(verdict: Sentiment.Label, score: real)

  /** `MetaInfo` (app/schemas.py:22-25), without the elapsed time. */
  datatype MetaInfo = MetaInfo(provider: string, models: map<string, Option<string>>)

  /** `TextAnalysisResponse` (app/schemas.py:28-32). */
  datatype AnalysisResponse = AnalysisResponse(
    sentiment: Option<SentimentResult>,
    keyphrases: Option<seq<string>>,
    summary: Option<string>,
    meta: MetaInfo)

  /** `ValueError("invalid_text")`, or an exception out of a provider operation. */
  datatype AnalysisError = InvalidText | InferenceError(cause: ProviderError)

  /** The validation of text_analysis.py:14-15: non-empty and at most `maxChars` characters. */
  predicate Accepts(maxChars: int, text: string)
  {
    text != [] && |text| <= maxChars
  }

  /** A disabled operation yields `None` without being run. */
  function Enabled<T>(flag: bool, outcome: Result<Option<T>, ProviderError>): Result<Option<T>, ProviderError>
  {
    if flag then outcome else Success(None)
  }

  /** `SentimentResult(label=t[0], score=float(t[1]))` for a tuple, nothing for `None` (lines 31-33). */
  function ToSentimentResult(reply: SentimentReply): (r: Option<SentimentResult>)
    ensures r.None? <==> reply.None?
    ensures reply.Some? ==> r.value.verdict == reply.value.0 && r.value.score == reply.value.1
  {
    match reply
    case None => None
    case Some((verdict, score)) => Some(SentimentResult(verdict, score))
  }

  /** What `analyze` returns or raises for a provider `p` and a length limit. */
  function AnalyzeSpec(p: Provider, maxChars: int, text: string,
                       doSentiment: bool, doKeywords: bool, doSummary: bool)
    : (r: Result<AnalysisResponse, AnalysisError>)
    // invalid text is rejected, and only invalid text
    ensures r == Failure(InvalidText) <==> !Accepts(maxChars, text)
    // all or nothing: a response exists exactly when every enabled operation answered
    ensures r.Success? <==>
      && Accepts(maxChars, text)
      && (doSentiment ==> SentimentOf(p.behaviour, text).Success?)
      && (doKeywords ==> KeywordsOf(p.behaviour, text).Success?)
      && (doSummary ==> SummaryOf(p.behaviour, text).Success?)
    // a provider failure is reported as it was raised, and it is one of the enabled operations'
    ensures r.Failure? && r.error.InferenceError? ==>
      || (doSentiment && SentimentOf(p.behaviour, text) == Failure(r.error.cause))
      || (doKeywords && KeywordsOf(p.behaviour, text) == Failure(r.error.cause))
      || (doSummary && SummaryOf(p.behaviour, text) == Failure(r.error.cause))
    // a disabled flag leaves its field empty; an enabled one passes the answer through
    ensures r.Success? ==> (if doSentiment then r.value.sentiment == ToSentimentResult(SentimentOf(p.behaviour, text).value)
                            else r.value.sentiment.None?)
    ensures r.Success? ==> (if doKeywords then r.value.keyphrases == KeywordsOf(p.behaviour, text).value
                            else r.value.keyphrases.None?)
    ensures r.Success? ==> (if doSummary then r.value.summary == SummaryOf(p.behaviour, text).value
                            else r.value.summary.None?)
    ensures r.Success? ==> r.value.meta == MetaInfo(p.name, map[])
  {
    if !Accepts(maxChars, text) then Failure(InvalidText)
    else
      var s := Enabled(doSentiment, SentimentOf(p.behaviour, text));
      var k := Enabled(doKeywords, KeywordsOf(p.behaviour, text));
      var m := Enabled(doSummary, SummaryOf(p.behaviour, text));
      if s.Failure? then Failure(InferenceError(s.error))
      else if k.Failure? then Failure(InferenceError(k.error))
      else if m.Failure? then Failure(InferenceError(m.error))
      else Success(AnalysisResponse(ToSentimentResult(s.value), k.value, m.value, MetaInfo(p.name, map[])))
  }

  class TextAnalysisService {
    var provider: Provider
    var maxChars: int

    /** `__init__` (text_analysis.py:9-11). */
    constructor(provider: Provider, maxChars: int)
      ensures this.provider == provider && this.maxChars == maxChars
    {
      this.provider := provider;
      this.maxChars := maxChars;
    }

    /**
     * `analyze` (text_analysis.py:13-35).  An operation is invoked exactly
     * when the text is accepted and its flag is set; the service's own
     * fields stay as they are.
     */
    method Analyze(text: string, doSentiment: bool, doKeywords: bool, doSummary: bool)
      returns (r: Result<AnalysisResponse, AnalysisError>)
      modifies provider
      ensures r == AnalyzeSpec(provider, maxChars, text, doSentiment, doKeywords, doSummary)
      ensures provider.sentimentCalls == old(provider.sentimentCalls) + (if Accepts(maxChars, text) && doSentiment then 1 else 0)
      ensures provider.keywordCalls == old(provider.keywordCalls) + (if Accepts(maxChars, text) && doKeywords then 1 else 0)
      ensures provider.summaryCalls == old(provider.summaryCalls) + (if Accepts(maxChars, text) && doSummary then 1 else 0)
      ensures provider == old(provider) && maxChars == old(maxChars)
    {
      if text == [] || |text| > maxChars {
        return Failure(InvalidText);
      }
      var s: SentimentOutcome := Success(None);
      if doSentiment {
        s := provider.AnalyzeSentiment(text);
      }
      var k: KeywordsOutcome := Success(None);
      if doKeywords {
        k := provider.ExtractKeywords(text);
      }
      var m: SummaryOutcome := Success(None);
      if doSummary {
        m := provider.Summarize(text);
      }
      if s.Failure? {
        return Failure(InferenceError(s.error));
      }
      if k.Failure? {
        return Failure(InferenceError(k.error));
      }
      if m.Failure? {
        return Failure(InferenceError(m.error));
      }
      var sentiment: Option<SentimentResult> := None;
      if s.value.Some? {
        sentiment := Some(SentimentResult(s.value.value.0, s.value.value.1));
      }
      var meta := MetaInfo(provider.name, map[]);
      r := Success(AnalysisResponse(sentiment, k.value, m.value, meta));
    }
  }

  // ---------------------------------------------------------------------------
  // Properties of the service over the heuristic provider

  /** The heuristic provider never fails: every accepted text gets a response. */
  lemma HeuristicNeverFails(p: Provider, maxChars: int, text: string, doS: bool, doK: bool, doSum: bool)
    requires p.behaviour.Heuristic?
    ensures AnalyzeSpec(p, maxChars, text, doS, doK, doSum).Success? <==> Accepts(maxChars, text)
  {
  }

  /** With every flag off the response is empty apart from the provider's name. */
  lemma AllFlagsOff(p: Provider, maxChars: int, text: string)
    requires Accepts(maxChars, text)
    ensures AnalyzeSpec(p, maxChars, text, false, false, false)
      == Success(AnalysisResponse(None, None, None, MetaInfo(p.name, map[])))
  {
  }

  /** Over the heuristic provider, an enabled summary is `None` exactly for blank text. */
  lemma HeuristicSummary(p: Provider, maxChars: int, text: string, doS: bool, doK: bool)
    requires p.behaviour.Heuristic? && Accepts(maxChars, text)
    ensures var r := AnalyzeSpec(p, maxChars, text, doS, doK, true);
      r.Success? && r.value.summary == Summary.Summarize(text)
      && (r.value.summary.None? <==> forall i :: 0 <= i < |text| ==> Text.IsSpace(text[i]))
  {
  }

  /** Empty text is refused whatever the flags and the provider. */
  lemma EmptyTextRejected(p: Provider, maxChars: int, doS: bool, doK: bool, doSum: bool)
    ensures AnalyzeSpec(p, maxChars, [], doS, doK, doSum) == Failure(InvalidText)
  {
  }

  /** A text of exactly `maxChars` characters is accepted; one more character is refused. */
  lemma LengthLimitInclusive(p: Provider, text: string, doS: bool, doK: bool, doSum: bool)
    requires text != []
    ensures AnalyzeSpec(p, |text|, text, doS, doK, doSum) != Failure(InvalidText)
    ensures AnalyzeSpec(p, |text| - 1, text, doS, doK, doSum) == Failure(InvalidText)
  {
  }

  /** The default limit of `MAX_CHARS` (app/config.py:7). */
  const DefaultMaxChars: int := 10000

  /**
   * A request with every flag off, on a fresh heuristic service: the response
   * is empty, no operation of the provider is invoked, and the service keeps
   * its fields.
   */
  method AllFlagsOffScenario(text: string) returns (r: Result<AnalysisResponse, AnalysisError>, p: Provider)
    requires text != [] && |text| <= DefaultMaxChars
    ensures r == Success(AnalysisResponse(None, None, None, MetaInfo("simple", map[])))
    ensures p.sentimentCalls == 0 && p.keywordCalls == 0 && p.summaryCalls == 0
  {
    p := new Provider.Simple();
    var service := new TextAnalysisService(p, DefaultMaxChars);
    r := service.Analyze(text, false, false, false);
  }

  /** Empty text on a fresh heuristic service is refused before any operation runs. */
  method EmptyTextScenario(doS: bool, doK: bool, doSum: bool) returns (r: Result<AnalysisResponse, AnalysisError>, p: Provider)
    ensures r == Failure(InvalidText)
    ensures p.sentimentCalls == 0 && p.keywordCalls == 0 && p.summaryCalls == 0
  {
    p := new Provider.Simple();
    var service := new TextAnalysisService(p, DefaultMaxChars);
    r := service.Analyze([], doS, doK, doSum);
  }
}
