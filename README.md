# Text analysis service: a Dafny model

This project models the core of a small text-analysis web service. Given a
text and three flags, the service can return three things:

- a sentiment label with a score;
- up to ten keywords and key phrases;
- a one-sentence summary.

The core has three parts:

- **Text utilities** (`app/utils/text.py`): whitespace normalisation and a
  punctuation-based sentence splitter. Both are written as left-to-right
  recursive scanners (`Text`).
- **The heuristic provider** `SimpleProvider` (`app/providers/simple.py`):
  - three word lists (`Tokens`);
  - lexicon sentiment (`Sentiment`);
  - frequency-ranked keywords merged with per-sentence two-word phrases
    (`Keywords`, with sequence helpers in `Seqs`);
  - first-sentence summarisation (`Summary`).
- **The orchestrator** `TextAnalysisService` (`app/services/text_analysis.py`):
  it validates the text, calls the enabled provider operations and assembles
  the response (`TextAnalysis`). The provider interface is modelled by
  `Providers`.

How each part is modelled:

- **Pure functions.** The pure Python functions become Dafny functions.
- **Loops.** The loops of `extract_keywords` become methods with loop
  invariants, each proved equal to the function that specifies it:
  - the frequency count;
  - the copy into `buf`;
  - the phrase loop;
  - the first-occurrence merge.
- **The service.** The service is a class with the two fields its
  constructor sets.
- **The provider.** The provider is a class too. Its three operations count
  their calls, so a contract can say which operations a request invoked.
- **Model-backed providers.** These are the transformer and spaCy providers.
  Their code is not part of this model. They are represented by
  `Behaviour.ModelBacked`, whose three answers are arbitrary functions of
  the text that may fail.
- **Worked examples.** `Scenarios` proves two examples on string literals:
  - the literal "I love this! It is great and amazing." is positive with
    score 1.0 (the sample is built from its words and separators, and
    `Scenarios.SampleAIsLiteral` proves it equal to that literal);
  - the literal "Hello world." is its own summary.

Modelling choices that follow the code:

- **Stop words.** `_STOPWORDS` has nineteen entries (simple.py:35-55), and
  the model uses exactly those nineteen words.
- **Whitespace.** Whitespace is exactly the set of characters that Python's
  `str.isspace()` accepts, which is also what `\s` and `str.strip()` use on
  `str`.
- **The sentiment label.**
  - The result field `label` is called `verdict`, because `label` is a
    reserved word in Dafny.
  - The label is computed as the code computes it: `score > 0.6` gives
    positive, `score < 0.4` gives negative, anything else is neutral.
  - The integer form (`5*pos > 3*(pos+neg)`) is proved equivalent.
- **Concurrency.** `asyncio.gather` runs the three operations concurrently.
  The model runs them one after another in task order (sentiment,
  keywords, summary).
  - Every enabled operation is invoked, as it is in the source, where no
    task is cancelled.
  - If any operation fails, the request fails and no response is built.
  - The reported error is the first failure in task order.

## Model

| member | source | states |
|---|---|---|
| Text.TrimStart | app/utils/text.py:6 | The result is a suffix of the input. Everything removed is whitespace, and the result does not start with whitespace. |
| Text.TrimEnd | app/utils/text.py:6 | The result is a prefix of the input. Everything removed is whitespace, and the result does not end with whitespace. |
| Text.Strip | app/utils/text.py:6 | `str.strip()`, as `TrimEnd(TrimStart(s))`. It has no contract of its own; `Text.StripIsSlice` and `Text.StripEmpty` state what it returns. |
| Text.StripEmpty | app/utils/text.py:6 | `strip()` returns the empty string exactly when every character is whitespace. |
| Text.CollapseSpaces | app/utils/text.py:11 | `re.sub(r"\s+", " ", s)`: each maximal whitespace run becomes one space. It has no contract of its own. `Text.CollapseEmpty`, `Text.CollapseVisible` and `Text.CollapseRun` fix it step by step on every input; `Text.CollapseShape`, `Text.CollapseFixed` and `Text.NonSpaceCollapse` state its consequences. |
| Text.Normalize | app/utils/text.py:10-11 | `normalize`: collapse, then strip. It has no contract of its own. Its value follows from the step lemmas of `Text.CollapseSpaces` and from `Text.Strip`; `Text.NormalizeTwoWords` and the other `Text.Normalize…` lemmas below state its consequences. |
| Text.TrimStartOfRun | app/utils/text.py:6 | Stripping a leading whitespace run stops exactly at the first visible character. |
| Text.StripTrimmed | app/utils/text.py:6 | A string without whitespace at either end is its own `strip()`. |
| Text.CollapseEmpty | app/utils/text.py:11 | The empty string collapses to itself. |
| Text.CollapseVisible | app/utils/text.py:11 | A visible character is kept, and the scan goes on after it. |
| Text.CollapseRun | app/utils/text.py:11 | A maximal whitespace run, of any length and any whitespace characters, becomes exactly one plain space, and the scan goes on after it. |
| Text.CollapseVisibleRun | app/utils/text.py:11 | A run of visible characters is kept as it is. |
| Text.NormalizeTwoWords | app/utils/text.py:10-11 | Two words separated by any non-empty whitespace run normalise to the two words joined by exactly one space. |
| Text.StripIsSlice | app/utils/text.py:6 | `strip()` returns a contiguous slice of its input with no whitespace at either end. |
| Text.CollapseShape | app/utils/text.py:11 | After `re.sub(r"\s+", " ", ...)`, the only whitespace is the plain space and no two spaces are adjacent. |
| Text.NormalizeShape | app/utils/text.py:10-11 | `normalize` returns a string with no leading or trailing whitespace, plain single spaces only. |
| Text.NormalizeFixed | app/utils/text.py:10-11 | A string that is already normalised is returned unchanged. |
| Text.NormalizeIdempotent | app/utils/text.py:10-11 | `normalize(normalize(s)) == normalize(s)`. |
| Text.NormalizeKeepsText | app/utils/text.py:10-11 | `normalize` keeps every non-whitespace character, in order, and adds none. |
| Text.FirstBoundary | app/utils/text.py:6 | The first index where a terminator is followed by whitespace, or the length; no such boundary occurs before it. |
| Text.SplitAtBoundaries | app/utils/text.py:6 | `re.split(r"(?<=[.!?])\s+", t)`: cut at each whitespace run that follows a terminator. It has no contract of its own. `Text.SplitAtBoundariesCons` states where it cuts, and `Text.SplitSentencesSingle` that a text without a terminator followed by whitespace is not cut; `Text.SplitShape` and `Text.SplitKeepsVisible` state its consequences. |
| Text.FirstBoundaryAfterSentence | app/utils/text.py:6 | After a sentence with no inner boundary that ends in a terminator, whitespace makes the first boundary. |
| Text.SplitAtFirst | app/utils/text.py:6 | At its first boundary the splitter yields the sentence, then splits what follows the dropped whitespace. |
| Text.SplitAtBoundariesCons | app/utils/text.py:6 | A sentence ending in a terminator, then a whitespace run, then the rest: the first cut falls exactly at that run, which is dropped whole. |
| Text.SplitSentences | app/utils/text.py:5-7 | `split_sentences`: strip, split, drop empty parts. It has no contract of its own. `Text.SplitSentencesOfStripped`, `Text.SplitSentencesCons` and `Text.SplitSentencesSingle` fix its value on every input; the other `Text.SplitSentences…` lemmas below state its consequences. |
| Text.SplitSentencesOfStripped | app/utils/text.py:5-7 | Leading and trailing whitespace do not change the sentences. |
| Text.SplitSentencesCons | app/utils/text.py:5-7 | A trimmed text is cut after a sentence that ends in a terminator followed by whitespace: that sentence comes first, and the rest is split on its own. A terminator not followed by whitespace does not cut (`Text.SplitSentencesSingle`). |
| Text.DropEmpty | app/utils/text.py:7 | `[p for p in parts if p]` keeps only non-empty parts, all drawn from the input. Which parts, and their order, are fixed by `Text.DropEmptyConcat` and `Text.DropEmptySingle`. |
| Text.DropEmptyConcat | app/utils/text.py:7 | Dropping empty parts of `a + b` is dropping them from `a`, then from `b`: the filter works part by part and keeps order. |
| Text.DropEmptySingle | app/utils/text.py:7 | A single part is kept exactly when it is non-empty. With `Text.DropEmptyConcat` this fixes the result on every list. |
| Text.SplitShape | app/utils/text.py:6 | Splitting a trimmed non-empty text gives non-empty, trimmed pieces with no inner boundary; every piece but the last ends in `.`, `!` or `?`. |
| Text.SplitSentencesShape | app/utils/text.py:5-7 | The same for `split_sentences` on any text: no empty segment, no whitespace at either end, no terminator followed by whitespace inside, and a terminator at the end of every segment but the last. |
| Text.SplitSentencesEmpty | app/utils/text.py:5-7 | `split_sentences` returns `[]` exactly when the text is empty or all whitespace. |
| Text.SplitSentencesKeepText | app/utils/text.py:5-7 | Concatenating the segments and removing whitespace gives the input with its whitespace removed. |
| Text.SplitSentencesSingle | app/utils/text.py:5-7 | A trimmed, non-empty text without a terminator followed by whitespace is a single sentence, so a terminator followed by anything else, as in "2.0", does not cut. |
| Tokens.WordTokens | app/providers/simple.py:63 | Every sentiment token is a non-empty run of `[a-zA-Z']`. That the tokens are the maximal runs, in order, is stated by `Tokens.WordTokensRun`, `Tokens.WordTokensSkip`, `Tokens.WordTokensWord` and `Tokens.WordTokensCover`. |
| Tokens.WordTokensCover | app/providers/simple.py:63 | The tokens, laid end to end, are exactly the letters and apostrophes of the input, in order. |
| Tokens.KeywordTokens | app/providers/simple.py:75 | Every keyword token has at least two characters, starts with a letter and is made of letters, hyphens and apostrophes. The greedy scan is stated by `Tokens.KeywordTokensRun`, `Tokens.KeywordTokensLoneLetter`, `Tokens.KeywordTokensSkip`, `Tokens.KeywordTokensWord` and `Tokens.KeywordTokensShort`. |
| Tokens.KeywordTokenHasNoSpace | app/providers/simple.py:75 | A keyword token contains no space. |
| Tokens.WordTokensRun | app/providers/simple.py:63 | A word followed by non-word characters is one token, and the scan resumes after the separator. |
| Tokens.WordTokensSkip | app/providers/simple.py:63 | Characters outside `[a-zA-Z']` produce no token. |
| Tokens.WordTokensWord | app/providers/simple.py:63 | A non-empty run of `[a-zA-Z']` on its own is exactly one token. With `Tokens.WordTokensRun` and `Tokens.WordTokensSkip` this fixes the tokens of every string, taken as separators and maximal runs. |
| Tokens.KeywordTokensSkip | app/providers/simple.py:75 | Where no character is an ASCII letter, no keyword token starts. |
| Tokens.KeywordTokensRun | app/providers/simple.py:75 | A letter followed by at least one more letter, hyphen or apostrophe, then by a letter-free separator that starts outside that class, is one keyword token; the scan resumes after the separator. |
| Tokens.KeywordTokensLoneLetter | app/providers/simple.py:75 | A single letter followed by such a separator starts no token. |
| Tokens.KeywordTokensWord | app/providers/simple.py:75 | A letter-led word of at least two letters, hyphens or apostrophes, on its own, is exactly one keyword token. |
| Tokens.KeywordTokensShort | app/providers/simple.py:75 | Fewer than two characters hold no keyword token, so a text ending in a single letter gets no token from it. |
| Tokens.WordTokensInterleave | app/providers/simple.py:63 | Words joined by non-word separators tokenise to exactly those words. |
| Tokens.TokensOfInterleave | app/providers/simple.py:62-63 | The same after lower-casing: the tokens are the lower-cased words. |
| Tokens.InterleaveNormalized | app/utils/text.py:11 | Words joined by well-spaced separators, the last not ending in whitespace, form a normalised string. |
| Tokens.LowerOfLowercase | app/providers/simple.py:62 | A string without upper-case ASCII letters is unchanged by `lower()`. |
| Tokens.Lower | app/providers/simple.py:62 | `str.lower()` on ASCII letters, character by character. It has no contract of its own; `Tokens.LowerShape` states what it returns. |
| Tokens.LowerShape | app/providers/simple.py:62 | Lower-casing keeps the length, turns each of `A`..`Z` into the same letter in lower case, changes no other character, and is idempotent. |
| Tokens.LowerKeepsClasses | app/providers/simple.py:62-63 | Lower-casing keeps runs of `[a-zA-Z']` inside the class and separators outside it. |
| Tokens.Span | app/providers/simple.py:63 | The length of the longest prefix inside a character class: everything before it is in the class, and the next character, if any, is not. |
| Sentiment.CountIn | app/providers/simple.py:64-65 | The number of lexicon hits is at most the number of tokens. The count itself is fixed by `Sentiment.CountInConcat` and `Sentiment.CountInSingle`. |
| Sentiment.CountInConcat | app/providers/simple.py:64-65 | The hits of `a + b` are the hits of `a` plus the hits of `b`. |
| Sentiment.CountInSingle | app/providers/simple.py:64-65 | One token is one hit exactly when it is in the lexicon. With `Sentiment.CountInConcat` this fixes the count: one per token in the lexicon. |
| Sentiment.SentimentTokens | app/providers/simple.py:62-63 | The tokens of the lower-cased text. It has no contract of its own; `Tokens.WordTokensCover` and `Sentiment.SentimentOfWords` state what they are. |
| Sentiment.AnalyzeSentiment | app/providers/simple.py:61-71 | `analyze_sentiment`: the score is in [0, 1]. `Sentiment.Classify` states the label and score for the hit counts. |
| Sentiment.Classify | app/providers/simple.py:66-71 | No hits gives `(neutral, 0.5)`. Otherwise the score is `pos/(pos+neg)`, in [0, 1]. The label is positive iff `5*pos > 3*(pos+neg)` and negative iff `5*pos < 2*(pos+neg)`. |
| Sentiment.ThresholdsAsIntegers | app/providers/simple.py:69-70 | Comparing the ratio with 0.6 and 0.4 is the same as comparing `5*pos` with 3 and 2 times the total. |
| Sentiment.CountInPermutation | app/providers/simple.py:64-65 | The hit count depends only on the multiset of tokens. |
| Sentiment.SentimentIgnoresOrder | app/providers/simple.py:61-71 | Two texts whose tokens are the same multiset get the same label and score. |
| Sentiment.NoSignalIsNeutral | app/providers/simple.py:66-67 | With no token in either lexicon the result is exactly `(neutral, 0.5)`. |
| Sentiment.SentimentOfWords | app/providers/simple.py:61-71 | Normalised text made of words and separators gets the classification of the lower-cased words' hit counts. |
| Seqs.Take | app/providers/simple.py:81 | `s[:n]` has length `min(len(s), n)` and is a prefix of `s`. |
| Seqs.Dedup | app/providers/simple.py:92 | `list(dict.fromkeys(s))` has no duplicates and the same elements as `s`. |
| Seqs.DedupPrefix | app/providers/simple.py:92 | First-seen order: extending the input only appends to the output. |
| Seqs.DedupAppend | app/providers/simple.py:92 | Deduplicating `p + q`, when `q` is distinct and disjoint from `p`, keeps all of `q` after the deduplicated `p`. |
| Seqs.DedupOfDistinct | app/providers/simple.py:92 | A list without duplicates is its own deduplication. |
| Seqs.Frequencies | app/providers/simple.py:77-79 | The table's keys are exactly the tokens. |
| Seqs.FrequenciesSnoc | app/providers/simple.py:78-79 | One more token increments its entry, creating it at one. |
| Seqs.Collect | app/providers/simple.py:82-91 | The comprehension yields at most one value per element. |
| Seqs.CollectAppend | app/providers/simple.py:84-91 | Collecting over `s + t` is collecting over `s`, then over `t`. |
| Seqs.CollectOrigin | app/providers/simple.py:84-91 | Every collected value is the value of some element. |
| Seqs.TakeDedup | app/providers/simple.py:92-93 | `list(dict.fromkeys(s))[:n]` has at most `n` distinct elements, all from `s`. |
| Keywords.LexAsymmetric | app/providers/simple.py:80 | Python string `<` is irreflexive and asymmetric. |
| Keywords.LexTotal | app/providers/simple.py:80 | Python string `<` orders any two different strings. |
| Keywords.LexTransitive | app/providers/simple.py:80 | Python string `<` is transitive. |
| Keywords.RanksBeforeOrder | app/providers/simple.py:80 | The sort key `(-count, word)` is a strict total order on words. |
| Keywords.InsertRanked | app/providers/simple.py:80 | Inserting adds exactly the one word. |
| Keywords.SortRanked | app/providers/simple.py:80 | Sorting is a permutation of its input. |
| Keywords.InsertRankedSorted | app/providers/simple.py:80 | Inserting a new word into a ranked list keeps it ranked. |
| Keywords.SortRankedSorted | app/providers/simple.py:80 | The sorted distinct words are in strict rank order. |
| Keywords.SortedDistinct | app/providers/simple.py:80 | A strictly ranked list has no duplicates. |
| Keywords.ContentWords | app/providers/simple.py:76 | A word is kept iff it is a token, not a stop word and longer than two characters. Order and repeats are fixed by `Keywords.ContentWordsConcat` and `Keywords.ContentWordsSingle`. |
| Keywords.DropStopWords | app/providers/simple.py:86 | A word is kept iff it is a token and not a stop word. Order and repeats are fixed by `Keywords.DropStopWordsConcat` and `Keywords.DropStopWordsSingle`. |
| Keywords.ContentWordsConcat | app/providers/simple.py:76 | The content-word filter of `a + b` is that of `a`, then that of `b`: it works token by token and keeps order and repeats. |
| Keywords.ContentWordsSingle | app/providers/simple.py:76 | A single token is kept exactly when it is not a stop word and is longer than two characters. With `Keywords.ContentWordsConcat` this fixes the result on every list. |
| Keywords.DropStopWordsConcat | app/providers/simple.py:86 | The stop-word filter of `a + b` is that of `a`, then that of `b`. |
| Keywords.DropStopWordsSingle | app/providers/simple.py:86 | A single token is kept exactly when it is not a stop word. With `Keywords.DropStopWordsConcat` this fixes the result on every list. |
| Keywords.KeywordTokensOf | app/providers/simple.py:74-75 | The keyword tokens of the normalised, lower-cased text. It has no contract of its own; `Tokens.KeywordTokens` and the `Tokens.KeywordTokens…` lemmas state what they are. |
| Keywords.RankedTokens | app/providers/simple.py:74-76 | The content words among those tokens. It has no contract of its own; `Keywords.SingleWordsAreContentTokens` states what they are. |
| Keywords.SingleWords | app/providers/simple.py:77-81 | The ten top-ranked distinct tokens. It has no contract of its own; `Keywords.SingleWordsAreTopRanked` states what they are. |
| Keywords.SentencePhrase | app/providers/simple.py:85-91 | The phrase of one sentence: its first two non-stop-word tokens joined by a space, if there are two. It has no contract of its own; `Keywords.PhraseHasSpace` and `Keywords.PhraseStep` state what it returns. |
| Keywords.Phrases | app/providers/simple.py:82-91 | The phrases of the sentences, in order. It has no contract of its own; `Keywords.CollectPhrases` and `Keywords.PhrasesHaveSpaces` state what it returns. |
| Keywords.Keywords | app/providers/simple.py:92-93 | The result has at most ten entries and no duplicates. |
| Keywords.CountFrequencies | app/providers/simple.py:77-79 | The counting loop builds exactly the frequency table of the tokens, with its keys in first-insertion order. |
| Keywords.CountStep | app/providers/simple.py:78-79 | One turn of the counting loop increments the token's count and appends a new key. |
| Keywords.CopyInto | app/providers/simple.py:87-89 | The append loop copies the word list exactly. |
| Keywords.CollectPhrases | app/providers/simple.py:82-91 | The phrase loop builds exactly the phrases of the sentences, in sentence order. |
| Keywords.PhraseStep | app/providers/simple.py:84-91 | One sentence adds its phrase exactly when it has two non-stop-word tokens. |
| Keywords.FirstOccurrences | app/providers/simple.py:92 | The merge keeps the first occurrence of each item, in order. |
| Keywords.ExtractKeywords | app/providers/simple.py:73-93 | The imperative extraction returns exactly the keywords function's value. |
| Keywords.SingleWordsAreContentTokens | app/providers/simple.py:75-76 | Every single-word keyword is a counted token of length at least 3, not a stop word, without a space. |
| Keywords.SingleWordsAreTopRanked | app/providers/simple.py:77-81 | The single words are in descending-frequency, ascending-alphabetical order. There are `min(distinct tokens, 10)` of them. Every counted token left out ranks below every one taken. |
| Keywords.PhrasesHaveSpaces | app/providers/simple.py:91 | Every phrase contains a space. |
| Keywords.KeywordsLayout | app/providers/simple.py:82-93 | The result is the distinct phrases in sentence order, followed by all single words, cut at ten. All phrases precede all single words. |
| Keywords.KeywordsOrigin | app/providers/simple.py:82-92 | Every keyword is the phrase of some sentence or one of the single words. |
| Summary.Summarize | app/providers/simple.py:95-100 | `None` iff the text is all whitespace, which is exactly when it has no sentence. Otherwise a prefix of the normalised first sentence, of exactly `min(len, 280)` characters. |
| Summary.ShortSentenceKept | app/providers/simple.py:99-100 | A first sentence that fits in 280 characters is returned whole, normalised. |
| Summary.SummaryShape | app/providers/simple.py:100 | A summary is non-empty, starts with a visible character and is spaced like normalised text. |
| Summary.ShortSummaryNormalized | app/providers/simple.py:99-100 | An uncut summary is a normalised string. |
| Summary.SummaryIsLeadingText | app/providers/simple.py:95-100 | The summary's visible characters are a prefix of the text's visible characters. |
| Summary.OneSentenceSummary | app/providers/simple.py:95-100 | A normalised single sentence of at most 280 characters is its own summary. |
| Providers.SentimentOf | app/providers/simple.py:61-71 | The heuristic provider always answers, with a score in [0, 1]. |
| Providers.KeywordsOf | app/providers/simple.py:73-93 | The heuristic provider always answers, with at most ten keywords. |
| Providers.SummaryOf | app/providers/simple.py:95-100 | The heuristic provider never fails, and answers unless the text is blank. |
| Providers.Provider.Simple | app/providers/simple.py:58-59 | Creates a heuristic provider named "simple", with no calls made. |
| Providers.Provider.Backed | app/providers/base.py:5-18 | Creates a provider whose three operations are the given functions. |
| Providers.Provider.AnalyzeSentiment | app/providers/base.py:8-10 | Returns the behaviour's sentiment outcome and counts one call. |
| Providers.Provider.ExtractKeywords | app/providers/base.py:12-14 | Returns the behaviour's keyword outcome and counts one call. |
| Providers.Provider.Summarize | app/providers/base.py:16-18 | Returns the behaviour's summary outcome and counts one call. |
| TextAnalysis.ToSentimentResult | app/services/text_analysis.py:31-33 | A tuple becomes `SentimentResult(label=t[0], score=t[1])`; `None` stays `None`. |
| TextAnalysis.Accepts | app/services/text_analysis.py:14-15 | The validation: the text is accepted iff it is non-empty and at most `max_chars` long. It has no contract of its own; `TextAnalysis.EmptyTextRejected` and `TextAnalysis.LengthLimitInclusive` state its boundary cases. |
| TextAnalysis.Enabled | app/services/text_analysis.py:18-29 | A disabled flag yields `None` without the operation; an enabled one yields the operation's outcome. It has no contract of its own; `TextAnalysis.AnalyzeSpec` states its effect on the response. |
| TextAnalysis.AnalyzeSpec | app/services/text_analysis.py:13-35 | Covers five things. (1) Invalid text is rejected, and only invalid text. (2) A response exists iff every enabled operation answered. (3) A failure is one raised by an enabled operation. (4) A disabled flag gives `None`, and an enabled one passes the answer through. (5) `meta` is the provider's name with an empty model map. |
| TextAnalysis.TextAnalysisService.constructor | app/services/text_analysis.py:9-11 | Stores the provider and the limit. |
| TextAnalysis.TextAnalysisService.Analyze | app/services/text_analysis.py:13-35 | Returns `AnalyzeSpec`'s result. Each provider operation is invoked exactly once when the text is accepted and its flag is set, and never otherwise. The service's fields are unchanged. |
| TextAnalysis.HeuristicNeverFails | app/services/text_analysis.py:13-35 | Over the heuristic provider, a request succeeds iff the text is accepted. |
| TextAnalysis.AllFlagsOff | app/services/text_analysis.py:18-35 | With all flags false, all three fields are `None`. |
| TextAnalysis.HeuristicSummary | app/services/text_analysis.py:26-35 | Over the heuristic provider, an enabled summary is the provider's summary, `None` exactly for blank text. |
| TextAnalysis.EmptyTextRejected | app/services/text_analysis.py:14-15 | Empty text is rejected whatever the flags and the provider. |
| TextAnalysis.LengthLimitInclusive | app/services/text_analysis.py:14-15 | A text of exactly `max_chars` characters is accepted; one character more is rejected. |
| TextAnalysis.AllFlagsOffScenario | app/services/text_analysis.py:18-35 | On a fresh heuristic service with the default limit, all flags off give an empty response, and no provider operation is called. |
| TextAnalysis.EmptyTextScenario | app/services/text_analysis.py:14-15 | Empty text is refused before any provider operation is called. |
| Scenarios.PositiveExample | app/providers/simple.py:61-71 | "I love this! It is great and amazing." gives `(positive, 1.0)`. |
| Scenarios.SampleAIsLiteral | app/providers/simple.py:61-71 | The sample used by `Scenarios.PositiveExample` is the literal "I love this! It is great and amazing.". |
| Scenarios.SummaryExample | app/providers/simple.py:95-100 | "Hello world." is its own summary. |

## Left out

- The transformer and spaCy providers (`app/providers/hf_provider.py`,
  `app/providers/spacy_provider.py`). They are not part of this model.
  `Behaviour.ModelBacked` stands for any provider whose three operations are
  functions of the text that may raise.
- Concurrency: the operations run sequentially in task order. In the source,
  the exception `gather` propagates is the first to be raised in time, which
  the model replaces by the first in task order. The `asyncio.sleep(0)`
  placeholders become `None` results.
- The wall-clock field `elapsed_ms` (text_analysis.py:16, 34). `MetaInfo`
  has no such field, because it is I/O.
- Sentiment.Classify: the score is the exact ratio `pos/(pos+neg)`. The
  rounding `round(score, 4)` (simple.py:71) is not modelled, because
  floating point is left out. The label is computed from the exact ratio,
  as the source computes it before rounding.
- Tokens.Lower: lower-cases ASCII letters only. Python's `str.lower()`
  also maps non-ASCII characters, and a few of them become ASCII letters:
  the Kelvin sign U+212A becomes `k`, and U+0130 (capital I with dot above)
  becomes `i` followed by U+0307. On such input the model and the source
  disagree. For example, Python lower-cases "li\u212Ae" to "like", a
  positive hit, while the model tokenises it as "li" and "e". Text without
  these characters is tokenised as in the source: Python also lower-cases
  other non-ASCII letters (`À` to `à`, `Σ` to `σ`), which the model leaves
  unchanged, but neither tokeniser keeps a non-ASCII character.
- DropEmpty: its own contract states only which parts can appear. That it
  keeps every non-empty part, in order, is stated by
  `Text.DropEmptyConcat` and `Text.DropEmptySingle`.
- ContentWords: its own contract is membership only. Order and repeats are
  stated by `Keywords.ContentWordsConcat` and `Keywords.ContentWordsSingle`.
- DropStopWords: its own contract is membership only. Order and repeats are
  stated by `Keywords.DropStopWordsConcat` and `Keywords.DropStopWordsSingle`.
- CountIn: its own contract is only the bound `n <= |ws|`. The exact count
  is stated by `Sentiment.CountInConcat` and `Sentiment.CountInSingle`.
- WordTokens: its own contract states the shape of every token. That the
  tokens are the maximal runs is stated by `Tokens.WordTokensRun`,
  `Tokens.WordTokensSkip` and `Tokens.WordTokensWord`.
- KeywordTokens: its own contract states the shape of every token. The
  greedy scan is stated by `Tokens.KeywordTokensRun`,
  `Tokens.KeywordTokensLoneLetter`, `Tokens.KeywordTokensSkip`,
  `Tokens.KeywordTokensWord` and `Tokens.KeywordTokensShort`.
- The `BaseProvider` abstract class is a concrete class with a closed
  `Behaviour`. New provider classes elsewhere in the codebase are
  represented only through `ModelBacked`.
- The HTTP layer, configuration and start-up code are out of scope:
  - `app/main.py`, `app/routers/analyze.py`, `app/config.py` and
    `public/app.js`;
  - the request schemas of `app/schemas.py`.
  The only configuration value used is the `MAX_CHARS` default of 10000
  (app/config.py:7), in `TextAnalysis.DefaultMaxChars`.
- Scenarios.PositiveExample: the sample text is written as its words and
  the separators between them (`Interleave`), not as one string literal.
  The verifier cannot evaluate the tokeniser on a 37-character literal
  within its resource limit.
