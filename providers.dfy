/**
 * The provider interface `BaseProvider` (app/providers/base.py:5-18): a name
 * and three operations, each of which may return nothing.
 *
 * Two kinds of provider exist.  The heuristic provider `SimpleProvider`
 * (app/providers/simple.py:58-100) is modelled in full.  Any other provider
 * (the model-backed ones) is given by its three operations as functions of
 * the text whose outcome may be a failure; it stands for an implementation
 * whose code is not part of this model.  Each operation counts its calls, so
 * that a caller's contract can say which operations it invoked.
 */
module Providers {

  import opened Wrappers
  import Sentiment
  import Keywords
  import Summary

  /** An exception raised inside a provider operation. */
  datatype ProviderError = ProviderError(message: string)

  /** The `(label, score)` answer of `analyze_sentiment`, if any. */
  type SentimentReply = Option<(Sentiment.Label, real)>

  type SentimentOutcome = Result<SentimentReply, ProviderError>
  type KeywordsOutcome = Result<Option<seq<string>>, ProviderError>
  type SummaryOutcome = Result<Option<string>, ProviderError>

  /** How a provider computes its three answers. */
  datatype Behaviour =
    | Heuristic
    | ModelBacked(
        sentiment: string -> SentimentOutcome,
        keywords: string -> KeywordsOutcome,
        summary: string -> SummaryOutcome)

  /** The outcome of `analyze_sentiment(text)`; the heuristic one always answers, with a score in [0, 1]. */
  function SentimentOf(b: Behaviour, text: string): (r: SentimentOutcome)
    ensures b.Heuristic? ==> r.Success? && r.value.Some?
    ensures b.Heuristic? ==> 0.0 <= r.value.value.1 <= 1.0
  {
    match b
    case Heuristic => Success(Some(Sentiment.AnalyzeSentiment(text)))
    case ModelBacked(sentiment, _, _) => sentiment(text)
  }

  /** The outcome of `extract_keywords(text)`; the heuristic one always answers, with at most ten keywords. */
  function KeywordsOf(b: Behaviour, text: string): (r: KeywordsOutcome)
    ensures b.Heuristic? ==> r.Success? && r.value.Some? && |r.value.value| <= Keywords.MaxKeywords
  {
    match b
    case Heuristic => Success(Some(Keywords.Keywords(text)))
    case ModelBacked(_, keywords, _) => keywords(text)
  }

  /** The outcome of `summarize(text)`; the heuristic one never fails, and answers unless the text is blank. */
  function SummaryOf(b: Behaviour, text: string): (r: SummaryOutcome)
    ensures b.Heuristic? ==> r.Success? && (r.value.Some? <==> Summary.Summarize(text).Some?)
  {
    match b
    case Heuristic => Success(Summary.Summarize(text))
    case ModelBacked(_, _, summary) => summary(text)
  }

  /** A provider: its name, its behaviour, and how often each operation was called. */
  class Provider {
    const name: string
    const behaviour: Behaviour
    ghost var sentimentCalls: nat
    ghost var keywordCalls: nat
    ghost var summaryCalls: nat

    /** `SimpleProvider()`, whose `name` is "simple" (simple.py:59). */
    constructor Simple()
      ensures name == "simple" && behaviour.Heuristic?
      ensures sentimentCalls == 0 && keywordCalls == 0 && summaryCalls == 0
    {
      name := "simple";
      behaviour := Heuristic;
      sentimentCalls := 0;
      keywordCalls := 0;
      summaryCalls := 0;
    }

    /** A provider whose answers come from outside this model. */
    constructor Backed(name: string, sentiment: string -> SentimentOutcome,
                       keywords: string -> KeywordsOutcome, summary: string -> SummaryOutcome)
      ensures this.name == name && behaviour.ModelBacked?
      ensures behaviour.sentiment == sentiment && behaviour.keywords == keywords && behaviour.summary == summary
      ensures sentimentCalls == 0 && keywordCalls == 0 && summaryCalls == 0
    {
      this.name := name;
      behaviour := ModelBacked(sentiment, keywords, summary);
      sentimentCalls := 0;
      keywordCalls := 0;
      summaryCalls := 0;
    }

    method AnalyzeSentiment(text: string) returns (r: SentimentOutcome)
      modifies this`sentimentCalls
      ensures r == SentimentOf(behaviour, text)
      ensures sentimentCalls == old(sentimentCalls) + 1
    {
      match behaviour {
        case Heuristic =>
          r := Success(Some(Sentiment.AnalyzeSentiment(text)));
        case ModelBacked(sentiment, _, _) =>
          r := sentiment(text);
      }
      sentimentCalls := sentimentCalls + 1;
    }

    method ExtractKeywords(text: string) returns (r: KeywordsOutcome)
      modifies this`keywordCalls
      ensures r == KeywordsOf(behaviour, text)
      ensures keywordCalls == old(keywordCalls) + 1
    {
      match behaviour {
        case Heuristic =>
          var ks := Keywords.ExtractKeywords(text);
          r := Success(Some(ks));
        case ModelBacked(_, keywords, _) =>
          r := keywords(text);
      }
      keywordCalls := keywordCalls + 1;
    }

    method Summarize(text: string) returns (r: SummaryOutcome)
      modifies this`summaryCalls
      ensures r == SummaryOf(behaviour, text)
      ensures summaryCalls == old(summaryCalls) + 1
    {
      match behaviour {
        case Heuristic =>
          r := Success(Summary.Summarize(text));
        case ModelBacked(_, _, summary) =>
          r := summary(text);
      }
      summaryCalls := summaryCalls + 1;
    }
  }
}
