/**
 * Worked examples of the heuristic provider on concrete sentences.  Each
 * literal fact about a sample is its own small lemma; the examples follow
 * from the general lemmas of the other modules.
 */
module Scenarios {

  import opened Wrappers
  import Text
  import opened Tokens
  import Sentiment
  import Summary

  // ---------------------------------------------------------------------------
  // "I love this! It is great and amazing." is positive with score 1.0

  const WordsA: seq<string> := ["I", "love", "this", "It", "is", "great", "and", "amazing"]
  const SepsA: seq<string> := [" ", " ", "! ", " ", " ", " ", " ", "."]
  const LoweredA: seq<string> := ["i", "love", "this", "it", "is", "great", "and", "amazing"]

  /** "I love this! It is great and amazing.", written as its words, each with the characters after it. */
  const SampleA: string := Interleave(WordsA, SepsA)

  /** The words and separators spell exactly the sample sentence. */
  lemma SampleAIsLiteral()
    ensures SampleA == "I love this! It is great and amazing."
  {
  }

  lemma SampleAWords()
    ensures forall i :: 0 <= i < |WordsA| ==> WordsA[i] != [] && AllWordChars(WordsA[i])
  {
  }

  lemma SampleASeparators()
    ensures forall i :: 0 <= i < |SepsA| ==> SepsA[i] != [] && NoWordChars(SepsA[i])
  {
  }

  lemma SampleASeparatorSpacing()
    ensures forall i :: 0 <= i < |SepsA| ==> Text.OnlyPlainSpaces(SepsA[i]) && Text.NoDoubleSpace(SepsA[i])
    ensures var last := SepsA[|SepsA| - 1]; last == [] || !Text.IsSpace(last[|last| - 1])
  {
  }

  lemma SampleANormalized()
    ensures Text.IsNormalized(SampleA)
  {
    SampleAWords();
    SampleASeparatorSpacing();
    InterleaveNormalized(WordsA, SepsA);
  }

  lemma SampleALowered()
    ensures LowerAll(WordsA) == LoweredA
  {
    assert Lower("I") == "i" by {
      assert |Lower("I")| == 1 && Lower("I")[0] == 'i';
    }
    assert Lower("It") == "it" by {
      assert |Lower("It")| == 2 && Lower("It")[0] == 'i' && Lower("It")[1] == 't';
    }
    LowerOfLowercase("love");
    LowerOfLowercase("this");
    LowerOfLowercase("is");
    LowerOfLowercase("great");
    LowerOfLowercase("and");
    LowerOfLowercase("amazing");
  }

  lemma SampleAPositive()
    ensures Sentiment.CountIn(LoweredA, PositiveWords) == 3
  {
  }

  lemma SampleANegative()
    ensures Sentiment.CountIn(LoweredA, NegativeWords) == 0
  {
  }

  lemma SampleACounts()
    ensures Sentiment.CountIn(LowerAll(WordsA), PositiveWords) == 3
    ensures Sentiment.CountIn(LowerAll(WordsA), NegativeWords) == 0
  {
    SampleALowered();
    SampleAPositive();
    SampleANegative();
  }

  /** Three positive hits (love, great, amazing) and no negative one. */
  lemma PositiveExample()
    ensures Sentiment.AnalyzeSentiment(SampleA) == (Sentiment.Positive, 1.0)
  {
    SampleANormalized();
    SampleAWords();
    SampleASeparators();
    Sentiment.SentimentOfWords(SampleA, WordsA, SepsA);
    SampleACounts();
  }

  // ---------------------------------------------------------------------------
  // "Hello world." is its own summary

  const SampleF: string := "Hello world."

  lemma SampleFNormalized()
    ensures Text.IsNormalized(SampleF)
  {
  }

  lemma SampleFOneSentence()
    ensures Text.NoInnerBoundary(SampleF)
  {
    assert forall j :: 0 <= j < |SampleF| - 1 ==> !Text.IsTerminator(SampleF[j]);
  }

  lemma SummaryExample()
    ensures Summary.Summarize(SampleF) == Some(SampleF)
  {
    SampleFNormalized();
    SampleFOneSentence();
    Summary.OneSentenceSummary(SampleF);
  }
}
