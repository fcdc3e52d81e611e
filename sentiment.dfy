/**
 * Lexicon sentiment of the heuristic provider, `SimpleProvider.analyze_sentiment`
 * (app/providers/simple.py:61-71).
 *
 * The score is the exact ratio pos / (pos + neg) as a real number; the
 * thresholds 0.6 and 0.4 are compared against it exactly.
 */
module Sentiment {

  import Text
  import opened Tokens

  datatype Label = Positive | Negative | Neutral

  /** The number of words of `ws` that are in `lexicon` (`sum(1 for w in words if w in lexicon)`). */
  function CountIn(ws: seq<string>, lexicon: set<string>): (n: nat)
    ensures n <= |ws|
  {
    if ws == [] then 0 else (if ws[0] in lexicon then 1 else 0) + CountIn(ws[1..], lexicon)
  }

  /** The tokens the sentiment scan looks at: `re.findall(r"[a-zA-Z']+", normalize(text).lower())`. */
  function SentimentTokens(text: string): seq<string>
  {
    WordTokens(Lower(Text.Normalize(text)))
  }

  /**
   * The label and score for `pos` positive and `neg` negative hits
   * (simple.py:66-71, without the rounding to four places).
   */
  function Classify(pos: nat, neg: nat): (r: (Label, real))
    ensures pos == 0 && neg == 0 ==> r == (Neutral, 0.5)
    ensures pos + neg > 0 ==> r.1 == pos as real / (pos + neg) as real
    ensures 0.0 <= r.1 <= 1.0
    ensures pos + neg > 0 ==> (r.0 == Positive <==> 5 * pos > 3 * (pos + neg))
    ensures pos + neg > 0 ==> (r.0 == Negative <==> 5 * pos < 2 * (pos + neg))
  {
    if pos == 0 && neg == 0 then (Neutral, 0.5)
    else
      var total := pos + neg;
      var score := if total > 0 then pos as real / total as real else 0.5;
      var verdict := if score > 0.6 then Positive else if score < 0.4 then Negative else Neutral;
      ThresholdsAsIntegers(pos, total);
      (verdict, score)
  }

  /** For a positive denominator, a ratio exceeds `c` exactly when the numerator exceeds `c` times it. */
  lemma RatioCompare(a: real, t: real, c: real)
    requires t > 0.0
    ensures a / t > c <==> a > c * t
    ensures a / t < c <==> a < c * t
  {
    var q := a / t;
    assert q * t == a;
    assert (q - c) * t == a - c * t;
    if q > c {
      assert (q - c) * t > 0.0;
    }
    if q < c {
      assert (c - q) * t > 0.0;
    }
    if a > c * t {
      assert (q - c) * t > 0.0;
    }
    if a < c * t {
      assert (c - q) * t > 0.0;
    }
  }

  /** Comparing the ratio with 0.6 and 0.4 is comparing 5 * pos with 3 and 2 times the total. */
  lemma ThresholdsAsIntegers(pos: nat, total: nat)
    requires 0 < total && pos <= total
    ensures 0.0 <= pos as real / total as real <= 1.0
    ensures pos as real / total as real > 0.6 <==> 5 * pos > 3 * total
    ensures pos as real / total as real < 0.4 <==> 5 * pos < 2 * total
  {
    var t := total as real;
    RatioCompare(pos as real, t, 0.6);
    RatioCompare(pos as real, t, 0.4);
    RatioCompare(pos as real, t, 1.0);
    RatioCompare(pos as real, t, 0.0);
  }

  /** `SimpleProvider.analyze_sentiment`: classify the counts of lexicon hits. */
  function AnalyzeSentiment(text: string): (r: (Label, real))
    ensures 0.0 <= r.1 <= 1.0
  {
    var words := SentimentTokens(text);
    Classify(CountIn(words, PositiveWords), CountIn(words, NegativeWords))
  }

  // ---------------------------------------------------------------------------
  // Order independence

  lemma {:induction false} CountInConcat(a: seq<string>, b: seq<string>, lexicon: set<string>)
    ensures CountIn(a + b, lexicon) == CountIn(a, lexicon) + CountIn(b, lexicon)
    decreases |a|
  {
    if a == [] {
      assert a + b == b;
    } else {
      assert (a + b)[0] == a[0];
      assert (a + b)[1..] == a[1..] + b;
      CountInConcat(a[1..], b, lexicon);
    }
  }

  /**
   * One token is one hit exactly when it is in the lexicon; with `CountInConcat`
   * this fixes the count of every token list: one per token in the lexicon.
   */
  lemma CountInSingle(w: string, lexicon: set<string>)
    ensures CountIn([w], lexicon) == if w in lexicon then 1 else 0
  {
    assert [w][1..] == [];
  }

  /** Taking out the element at `j` removes that element's hit, if any. */
  lemma CountInRemove(b: seq<string>, j: nat, lexicon: set<string>)
    requires j < |b|
    ensures CountIn(b, lexicon) == CountIn(b[..j] + b[j + 1..], lexicon) + (if b[j] in lexicon then 1 else 0)
  {
    assert b == (b[..j] + [b[j]]) + b[j + 1..];
    CountInConcat(b[..j] + [b[j]], b[j + 1..], lexicon);
    CountInConcat(b[..j], [b[j]], lexicon);
    CountInConcat(b[..j], b[j + 1..], lexicon);
    assert [b[j]][1..] == [];
  }

  /** The multiset of a sequence with the element at `j` taken out. */
  lemma MultisetRemove(b: seq<string>, j: nat)
    requires j < |b|
    ensures multiset(b[..j] + b[j + 1..]) == multiset(b) - multiset{b[j]}
  {
    assert b == b[..j] + [b[j]] + b[j + 1..];
  }

  /** The number of lexicon hits depends only on the bag of words, not on their order. */
  lemma {:induction false} CountInPermutation(a: seq<string>, b: seq<string>, lexicon: set<string>)
    requires multiset(a) == multiset(b)
    ensures CountIn(a, lexicon) == CountIn(b, lexicon)
    decreases |a|
  {
    if a == [] {
      assert |b| == |multiset(b)| == 0;
    } else {
      var x := a[0];
      assert x in multiset(b);
      var j :| 0 <= j < |b| && b[j] == x;
      MultisetRemove(b, j);
      assert a == [x] + a[1..];
      assert multiset(a[1..]) == multiset(a) - multiset{x};
      CountInPermutation(a[1..], b[..j] + b[j + 1..], lexicon);
      CountInRemove(b, j, lexicon);
    }
  }

  /** Two texts whose tokens are the same bag of words get the same label and score. */
  lemma SentimentIgnoresOrder(text1: string, text2: string)
    requires multiset(SentimentTokens(text1)) == multiset(SentimentTokens(text2))
    ensures AnalyzeSentiment(text1) == AnalyzeSentiment(text2)
  {
    CountInPermutation(SentimentTokens(text1), SentimentTokens(text2), PositiveWords);
    CountInPermutation(SentimentTokens(text1), SentimentTokens(text2), NegativeWords);
  }

  /** With no lexicon word at all the result is pinned to (neutral, 0.5). */
  lemma NoSignalIsNeutral(text: string)
    requires forall w :: w in SentimentTokens(text) ==> w !in PositiveWords && w !in NegativeWords
    ensures AnalyzeSentiment(text) == (Neutral, 0.5)
  {
    NoHits(SentimentTokens(text), PositiveWords, NegativeWords);
  }

  lemma {:induction false} NoHits(ws: seq<string>, p: set<string>, n: set<string>)
    requires forall w :: w in ws ==> w !in p && w !in n
    ensures CountIn(ws, p) == 0 && CountIn(ws, n) == 0
    decreases |ws|
  {
    if ws != [] {
      assert ws[0] in ws;
      NoHits(ws[1..], p, n);
    }
  }

  lemma SentimentOfWords(text: string, ws: seq<string>, seps: seq<string>)
    requires |ws| == |seps| && text == Interleave(ws, seps) && Text.IsNormalized(text)
    requires forall i :: 0 <= i < |ws| ==> ws[i] != [] && AllWordChars(ws[i])
    requires forall i :: 0 <= i < |seps| ==> seps[i] != [] && NoWordChars(seps[i])
    ensures AnalyzeSentiment(text) == Classify(CountIn(LowerAll(ws), PositiveWords), CountIn(LowerAll(ws), NegativeWords))
  {
    Text.NormalizeFixed(text);
    TokensOfInterleave(ws, seps);
  }
}
