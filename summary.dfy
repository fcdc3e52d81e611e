/**
 * Summarisation of the heuristic provider, `SimpleProvider.summarize`
 * (app/providers/simple.py:95-100): the normalised first sentence, cut at
 * 280 characters, or nothing when the text has no sentence.
 */
module Summary {

  import opened Wrappers
  import opened Seqs
  import Text

  /** The longest summary, in characters (simple.py:100). */
  const MaxSummary: nat := 280

  /** `SimpleProvider.summarize`. */
  function Summarize(text: string): (r: Option<string>)
    ensures r.None? <==> forall i :: 0 <= i < |text| ==> Text.IsSpace(text[i])
    ensures r.Some? ==> (Text.SplitSentences(text) != [] && |r.value| <= MaxSummary
      && r.value <= Text.Normalize(Text.SplitSentences(text)[0]))
    ensures r.Some? ==>
      var first := Text.Normalize(Text.SplitSentences(text)[0]);
      |r.value| == if |first| <= MaxSummary then |first| else MaxSummary
  {
    var sentences := Text.SplitSentences(text);
    Text.SplitSentencesEmpty(text);
    if sentences == [] then None
    else Some(Take(Text.Normalize(sentences[0]), MaxSummary))
  }

  /** A first sentence that fits is returned whole. */
  lemma ShortSentenceKept(text: string)
    requires Text.SplitSentences(text) != []
    requires |Text.Normalize(Text.SplitSentences(text)[0])| <= MaxSummary
    ensures Summarize(text) == Some(Text.Normalize(Text.SplitSentences(text)[0]))
  {
  }

  /** A non-empty string without leading whitespace has visible text. */
  lemma NonSpaceOfTrimmed(s: string)
    requires s != [] && !Text.IsSpace(s[0])
    ensures Text.NonSpace(s) != []
  {
    assert Text.NonSpace(s) == [s[0]] + Text.NonSpace(s[1..]);
  }

  /**
   * A summary is never empty, starts with a visible character, and is spaced
   * like normalised text: plain single spaces only.
   */
  lemma SummaryShape(text: string)
    requires Summarize(text).Some?
    ensures var v := Summarize(text).value;
      v != [] && !Text.IsSpace(v[0]) && Text.OnlyPlainSpaces(v) && Text.NoDoubleSpace(v)
  {
    var sentences := Text.SplitSentences(text);
    Text.SplitSentencesShape(text);
    var first := sentences[0];
    var n := Text.Normalize(first);
    Text.NormalizeShape(first);
    Text.NormalizeKeepsText(first);
    NonSpaceOfTrimmed(first);
    assert n != [];
    var v := Summarize(text).value;
    Text.SliceKeepsSpacing(n, 0, |v|);
  }

  /** The stripped first sentence that fits in the limit is already a normalised string. */
  lemma ShortSummaryNormalized(text: string)
    requires Summarize(text).Some? && |Text.Normalize(Text.SplitSentences(text)[0])| <= MaxSummary
    ensures Text.IsNormalized(Summarize(text).value)
  {
    Text.NormalizeShape(Text.SplitSentences(text)[0]);
  }

  /** Cutting a string keeps a prefix of its visible characters. */
  lemma NonSpaceOfPrefix(a: string, b: string)
    requires a <= b
    ensures Text.NonSpace(a) <= Text.NonSpace(b)
  {
    assert b == a + b[|a|..];
    Text.NonSpaceConcat(a, b[|a|..]);
  }

  /** The visible characters of the first sentence open those of the text. */
  lemma FirstSentenceLeads(text: string)
    requires Text.SplitSentences(text) != []
    ensures Text.NonSpace(Text.SplitSentences(text)[0]) <= Text.NonSpace(text)
  {
    var sentences := Text.SplitSentences(text);
    assert Text.Flatten(sentences) == sentences[0] + Text.Flatten(sentences[1..]);
    NonSpaceOfPrefix(sentences[0], Text.Flatten(sentences));
    Text.SplitSentencesKeepText(text);
  }

  /**
   * The summary shows the beginning of the text: its visible characters are a
   * prefix of the visible characters of the input.
   */
  lemma SummaryIsLeadingText(text: string)
    requires Summarize(text).Some?
    ensures Text.NonSpace(Summarize(text).value) <= Text.NonSpace(text)
  {
    var first := Text.SplitSentences(text)[0];
    NonSpaceOfPrefix(Summarize(text).value, Text.Normalize(first));
    Text.NormalizeKeepsText(first);
    FirstSentenceLeads(text);
  }

  /** A normalised single sentence that fits in the limit is its own summary. */
  lemma OneSentenceSummary(t: string)
    requires t != [] && Text.IsNormalized(t) && Text.NoInnerBoundary(t) && |t| <= MaxSummary
    ensures Summarize(t) == Some(t)
  {
    Text.SplitSentencesSingle(t);
    Text.NormalizeFixed(t);
  }
}
