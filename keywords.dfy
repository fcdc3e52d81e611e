/**
 * Keyword extraction of the heuristic provider, `SimpleProvider.extract_keywords`
 * (app/providers/simple.py:73-93).
 *
 * Two candidate lists are merged: per-sentence two-word phrases, then the
 * single words ranked by descending frequency with an ascending alphabetical
 * tie-break.  The merge keeps first occurrences and at most ten entries.
 */
module Keywords {

  import opened Wrappers
  import opened Seqs
  import Text
  import opened Tokens

  /** At most this many single words, and at most this many keywords (simple.py:81, 93). */
  const MaxKeywords: nat := 10

  // ---------------------------------------------------------------------------
  // Python's ordering of strings

  /** `a < b` on Python strings: lexicographic by code point, a proper prefix first. */
  predicate LexLess(a: string, b: string)
    decreases |a|
  {
    if a == [] then b != []
    else b != [] && (a[0] < b[0] || (a[0] == b[0] && LexLess(a[1..], b[1..])))
  }

  lemma {:induction false} LexAsymmetric(a: string, b: string)
    ensures LexLess(a, b) ==> !LexLess(b, a) && a != b
    decreases |a|
  {
    if a != [] && b != [] && a[0] == b[0] {
      LexAsymmetric(a[1..], b[1..]);
      assert a[1..] == b[1..] ==> a == b by {
        assert a == [a[0]] + a[1..] && b == [b[0]] + b[1..];
      }
    }
  }

  lemma {:induction false} LexTotal(a: string, b: string)
    requires a != b
    ensures LexLess(a, b) || LexLess(b, a)
    decreases |a|
  {
    if a != [] && b != [] && a[0] == b[0] {
      assert a[1..] != b[1..] by {
        assert a == [a[0]] + a[1..] && b == [b[0]] + b[1..];
      }
      LexTotal(a[1..], b[1..]);
    }
  }

  lemma {:induction false} LexTransitive(a: string, b: string, c: string)
    requires LexLess(a, b) && LexLess(b, c)
    ensures LexLess(a, c)
    decreases |a|
  {
    if a != [] && a[0] == b[0] && b[0] == c[0] {
      LexTransitive(a[1..], b[1..], c[1..]);
    }
  }

  // ---------------------------------------------------------------------------
  // Frequencies and ranking

  /** `w` comes before `v` under the sort key `(-count, word)` of simple.py:80. */
  predicate RanksBefore(freq: map<string, nat>, w: string, v: string)
  {
    || Frequency(freq, w) > Frequency(freq, v)
    || (Frequency(freq, w) == Frequency(freq, v) && LexLess(w, v))
  }

  lemma RanksBeforeOrder(freq: map<string, nat>, u: string, v: string, w: string)
    ensures RanksBefore(freq, u, v) ==> !RanksBefore(freq, v, u) && u != v
    ensures u != v ==> RanksBefore(freq, u, v) || RanksBefore(freq, v, u)
    ensures RanksBefore(freq, u, v) && RanksBefore(freq, v, w) ==> RanksBefore(freq, u, w)
  {
    LexAsymmetric(u, v);
    if u != v {
      LexTotal(u, v);
    }
    if LexLess(u, v) && LexLess(v, w) {
      LexTransitive(u, v, w);
    }
  }

  /** Strictly increasing under the ranking: best first, no ties, no repeats. */
  predicate SortedByRank(freq: map<string, nat>, s: seq<string>)
  {
    forall i, j :: 0 <= i < j < |s| ==> RanksBefore(freq, s[i], s[j])
  }

  /** Insert `w` in front of the first element it ranks before. */
  function InsertRanked(freq: map<string, nat>, w: string, s: seq<string>): (r: seq<string>)
    ensures multiset(r) == multiset(s) + multiset{w}
  {
    if s == [] then [w]
    else if RanksBefore(freq, w, s[0]) then [w] + s
    else
      assert s == [s[0]] + s[1..];
      [s[0]] + InsertRanked(freq, w, s[1..])
  }

  /** `sorted(..., key=lambda x: (-x[1], x[0]))` over the distinct words `ws`, as an insertion sort. */
  function SortRanked(freq: map<string, nat>, ws: seq<string>): (r: seq<string>)
    ensures multiset(r) == multiset(ws)
  {
    if ws == [] then []
    else
      assert ws == [ws[0]] + ws[1..];
      InsertRanked(freq, ws[0], SortRanked(freq, ws[1..]))
  }

  /** A sorted list stays sorted under a new head that ranks before all of it. */
  lemma ConsSorted(freq: map<string, nat>, x: string, t: seq<string>)
    requires SortedByRank(freq, t)
    requires forall y :: y in t ==> RanksBefore(freq, x, y)
    ensures SortedByRank(freq, [x] + t)
  {
    var r := [x] + t;
    forall i, j | 0 <= i < j < |r|
      ensures RanksBefore(freq, r[i], r[j])
    {
      assert r[j] == t[j - 1];
      if i > 0 {
        assert r[i] == t[i - 1];
      }
    }
  }

  /** The head of a sorted list ranks before everything after it. */
  lemma HeadRanksFirst(freq: map<string, nat>, s: seq<string>)
    requires SortedByRank(freq, s) && s != []
    ensures SortedByRank(freq, s[1..])
    ensures forall y :: y in s[1..] ==> RanksBefore(freq, s[0], y)
  {
    forall y | y in s[1..]
      ensures RanksBefore(freq, s[0], y)
    {
      var k :| 0 <= k < |s[1..]| && s[1..][k] == y;
      assert s[k + 1] == y;
    }
    forall i, j | 0 <= i < j < |s[1..]|
      ensures RanksBefore(freq, s[1..][i], s[1..][j])
    {
      assert s[1..][i] == s[i + 1] && s[1..][j] == s[j + 1];
    }
  }

  lemma {:induction false} InsertRankedSorted(freq: map<string, nat>, w: string, s: seq<string>)
    requires SortedByRank(freq, s) && w !in s
    ensures SortedByRank(freq, InsertRanked(freq, w, s))
    decreases |s|
  {
    if s == [] {
    } else if RanksBefore(freq, w, s[0]) {
      HeadRanksFirst(freq, s);
      forall y | y in s
        ensures RanksBefore(freq, w, y)
      {
        if y != s[0] {
          assert y in s[1..] by {
            assert s == [s[0]] + s[1..];
          }
          RanksBeforeOrder(freq, w, s[0], y);
        }
      }
      ConsSorted(freq, w, s);
    } else {
      RanksBeforeOrder(freq, s[0], w, w);
      HeadRanksFirst(freq, s);
      assert w !in s[1..];
      InsertRankedSorted(freq, w, s[1..]);
      var t := InsertRanked(freq, w, s[1..]);
      forall y | y in t
        ensures RanksBefore(freq, s[0], y)
      {
        assert y in multiset(t);
      }
      ConsSorted(freq, s[0], t);
    }
  }

  lemma {:induction false} SortRankedSorted(freq: map<string, nat>, ws: seq<string>)
    requires Distinct(ws)
    ensures SortedByRank(freq, SortRanked(freq, ws))
    decreases |ws|
  {
    if ws != [] {
      assert Distinct(ws[1..]) by {
        forall i, j | 0 <= i < j < |ws[1..]|
          ensures ws[1..][i] != ws[1..][j]
        {
          assert ws[1..][i] == ws[i + 1] && ws[1..][j] == ws[j + 1];
        }
      }
      SortRankedSorted(freq, ws[1..]);
      assert ws[0] !in ws[1..] by {
        forall i | 0 <= i < |ws[1..]|
          ensures ws[1..][i] != ws[0]
        {
          assert ws[1..][i] == ws[i + 1];
        }
      }
      assert ws[0] !in multiset(SortRanked(freq, ws[1..]));
      InsertRankedSorted(freq, ws[0], SortRanked(freq, ws[1..]));
    }
  }

  /** A list sorted strictly by rank has no duplicates. */
  lemma SortedDistinct(freq: map<string, nat>, s: seq<string>)
    requires SortedByRank(freq, s)
    ensures Distinct(s)
  {
    forall i, j | 0 <= i < j < |s|
      ensures s[i] != s[j]
    {
      RanksBeforeOrder(freq, s[i], s[j], s[j]);
    }
  }

  // ---------------------------------------------------------------------------
  // Candidate lists

  /** `[w for w in tokens if w not in _STOPWORDS and len(w) > 2]` (simple.py:76). */
  function ContentWords(ws: seq<string>): (r: seq<string>)
    ensures forall w :: w in r <==> w in ws && w !in StopWords && |w| > 2
  {
    if ws == [] then []
    else (if ws[0] !in StopWords && |ws[0]| > 2 then [ws[0]] else []) + ContentWords(ws[1..])
  }

  /** `[w for w in tokens if w not in _STOPWORDS]` (simple.py:86). */
  function DropStopWords(ws: seq<string>): (r: seq<string>)
    ensures forall w :: w in r <==> w in ws && w !in StopWords
  {
    if ws == [] then []
    else (if ws[0] !in StopWords then [ws[0]] else []) + DropStopWords(ws[1..])
  }

  /** One step of the content-word filter: the head token, if kept, then the rest. */
  lemma ContentWordsCons(w: string, t: seq<string>)
    ensures ContentWords([w] + t) == (if w !in StopWords && |w| > 2 then [w] else []) + ContentWords(t)
  {
    assert ([w] + t)[0] == w && ([w] + t)[1..] == t;
  }

  /** The content-word filter works token by token and keeps the tokens it passes in order. */
  lemma {:induction false} ContentWordsConcat(a: seq<string>, b: seq<string>)
    ensures ContentWords(a + b) == ContentWords(a) + ContentWords(b)
    decreases |a|
  {
    if a == [] {
      assert a + b == b;
    } else {
      var t := a[1..];
      assert a == [a[0]] + t;
      assert a + b == [a[0]] + (t + b);
      ContentWordsCons(a[0], t + b);
      ContentWordsCons(a[0], t);
      ContentWordsConcat(t, b);
      AppendAssoc(if a[0] !in StopWords && |a[0]| > 2 then [a[0]] else [], ContentWords(t), ContentWords(b));
    }
  }

  /** A single token is kept exactly when it is not a stop word and is longer than two characters. */
  lemma ContentWordsSingle(w: string)
    ensures ContentWords([w]) == if w !in StopWords && |w| > 2 then [w] else []
  {
    assert [w][1..] == [];
  }

  /** One step of the stop-word filter: the head token, if kept, then the rest. */
  lemma DropStopWordsCons(w: string, t: seq<string>)
    ensures DropStopWords([w] + t) == (if w !in StopWords then [w] else []) + DropStopWords(t)
  {
    assert ([w] + t)[0] == w && ([w] + t)[1..] == t;
  }

  /** The stop-word filter works token by token and keeps the tokens it passes in order. */
  lemma {:induction false} DropStopWordsConcat(a: seq<string>, b: seq<string>)
    ensures DropStopWords(a + b) == DropStopWords(a) + DropStopWords(b)
    decreases |a|
  {
    if a == [] {
      assert a + b == b;
    } else {
      var t := a[1..];
      assert a == [a[0]] + t;
      assert a + b == [a[0]] + (t + b);
      DropStopWordsCons(a[0], t + b);
      DropStopWordsCons(a[0], t);
      DropStopWordsConcat(t, b);
      AppendAssoc(if a[0] !in StopWords then [a[0]] else [], DropStopWords(t), DropStopWords(b));
    }
  }

  /** A single token is kept exactly when it is not a stop word. */
  lemma DropStopWordsSingle(w: string)
    ensures DropStopWords([w]) == if w !in StopWords then [w] else []
  {
    assert [w][1..] == [];
  }

  /** The keyword tokens of a text, after normalising and lower-casing it (simple.py:74-75). */
  function KeywordTokensOf(text: string): seq<string>
  {
    KeywordTokens(Lower(Text.Normalize(text)))
  }

  /** The tokens that are counted for the single-word ranking (simple.py:74-76). */
  function RankedTokens(text: string): seq<string>
  {
    ContentWords(KeywordTokensOf(text))
  }

  /** `ranked[:10]`: the words of the frequency table in rank order, at most ten (simple.py:77-81). */
  function SingleWords(text: string): seq<string>
  {
    var tokens := RankedTokens(text);
    Take(SortRanked(Frequencies(tokens), Dedup(tokens)), MaxKeywords)
  }

  /** The phrase one sentence contributes: its first two non-stop-word tokens, joined by a space. */
  function SentencePhrase(sentence: string): Option<string>
  {
    var words := DropStopWords(KeywordTokensOf(sentence));
    if |words| >= 2 then Some(words[0] + " " + words[1]) else None
  }

  /** The phrases of the sentences, in sentence order (simple.py:82-91). */
  function Phrases(sentences: seq<string>): seq<string>
  {
    Collect(sentences, SentencePhrase)
  }

  /** `extract_keywords`: phrases, then single words, first occurrences only, at most ten. */
  function Keywords(text: string): (r: seq<string>)
    ensures |r| <= MaxKeywords && Distinct(r)
  {
    TakeDedup(Phrases(Text.SplitSentences(text)) + SingleWords(text), MaxKeywords)
  }

  // ---------------------------------------------------------------------------
  // The imperative code

  /** The counting loop of simple.py:77-79, with the keys in first-insertion order. */
  method CountFrequencies<T(==,!new)>(tokens: seq<T>) returns (freq: map<T, nat>, order: seq<T>)
    ensures freq == Frequencies(tokens)
    ensures order == Dedup(tokens)
  {
    freq := map[];
    order := [];
    assert tokens[..0] == [];
    assert Frequencies<T>([]) == map[];
    var i := 0;
    while i < |tokens|
      invariant 0 <= i <= |tokens|
      invariant freq == Frequencies(tokens[..i])
      invariant order == Dedup(tokens[..i])
    {
      var w := tokens[i];
      CountStep(tokens, i, freq, order);
      if w !in freq {
        order := order + [w];
      }
      freq := freq[w := Frequency(freq, w) + 1];
      i := i + 1;
    }
    assert tokens[..|tokens|] == tokens;
  }

  /** `buf = []; for w in words: buf.append(w)` (simple.py:87-89). */
  method CopyInto<T>(words: seq<T>) returns (buf: seq<T>)
    ensures buf == words
  {
    buf := [];
    var k := 0;
    while k < |words|
      invariant 0 <= k <= |words|
      invariant buf == words[..k]
    {
      PrefixSnoc(words, k);
      buf := buf + [words[k]];
      k := k + 1;
    }
  }

  /** What one more token does to the frequency table and to its keys. */
  lemma CountStep<T(!new)>(tokens: seq<T>, i: nat, freq: map<T, nat>, order: seq<T>)
    requires i < |tokens|
    requires freq == Frequencies(tokens[..i]) && order == Dedup(tokens[..i])
    ensures Frequencies(tokens[..i + 1]) == freq[tokens[i] := Frequency(freq, tokens[i]) + 1]
    ensures Dedup(tokens[..i + 1]) == if tokens[i] in freq then order else order + [tokens[i]]
  {
    PrefixSnoc(tokens, i);
    FrequenciesSnoc(tokens[..i], tokens[i]);
    DedupSnoc(tokens[..i], tokens[i]);
  }

  /** The phrase loop of simple.py:82-91: the first two non-stop-word tokens of each sentence. */
  method CollectPhrases(sentences: seq<string>) returns (phrases: seq<string>)
    ensures phrases == Phrases(sentences)
  {
    phrases := [];
    var j := 0;
    while j < |sentences|
      invariant 0 <= j <= |sentences|
      invariant phrases == Phrases(sentences[..j])
    {
      var buf := CopyInto(DropStopWords(KeywordTokensOf(sentences[j])));
      PhraseStep(sentences, j, phrases, buf);
      if |buf| >= 2 {
        phrases := phrases + [buf[0] + " " + buf[1]];
      }
      j := j + 1;
    }
    CollectWhole(sentences, SentencePhrase);
  }

  /** One turn of the phrase loop extends the phrases of the sentences seen so far by the next sentence's. */
  lemma PhraseStep(sentences: seq<string>, j: nat, phrases: seq<string>, buf: seq<string>)
    requires j < |sentences| && phrases == Phrases(sentences[..j])
    requires buf == DropStopWords(KeywordTokensOf(sentences[j]))
    ensures (if |buf| >= 2 then phrases + [buf[0] + " " + buf[1]] else phrases) == Phrases(sentences[..j + 1])
  {
    CollectSnoc(sentences, j, SentencePhrase);
  }

  /** `list(dict.fromkeys(items))`: the first occurrence of each item, in order. */
  method FirstOccurrences(items: seq<string>) returns (out: seq<string>)
    ensures out == Dedup(items)
  {
    out := [];
    var seen: set<string> := {};
    var m := 0;
    while m < |items|
      invariant 0 <= m <= |items|
      invariant out == Dedup(items[..m])
      invariant forall x :: x in seen <==> x in out
    {
      PrefixSnoc(items, m);
      DedupSnoc(items[..m], items[m]);
      if items[m] !in seen {
        out := out + [items[m]];
        seen := seen + {items[m]};
      }
      m := m + 1;
    }
    assert items[..|items|] == items;
  }

  /** `SimpleProvider.extract_keywords` as the source writes it, loop by loop. */
  method ExtractKeywords(text: string) returns (result: seq<string>)
    ensures result == Keywords(text)
  {
    var tokens := RankedTokens(text);
    var freq, order := CountFrequencies(tokens);
    var single := Take(SortRanked(freq, order), MaxKeywords);
    var phrases := CollectPhrases(Text.SplitSentences(text));
    var merged := FirstOccurrences(phrases + single);
    result := Take(merged, MaxKeywords);
  }

  // ---------------------------------------------------------------------------
  // What the result is made of

  /** Every single word is a counted token: at least three characters, not a stop word, no space. */
  lemma SingleWordsAreContentTokens(text: string)
    ensures forall w :: w in SingleWords(text) ==>
      w in RankedTokens(text) && |w| >= 3 && w !in StopWords && ' ' !in w
  {
    var tokens := RankedTokens(text);
    var ranked := SortRanked(Frequencies(tokens), Dedup(tokens));
    forall w | w in SingleWords(text)
      ensures w in tokens && |w| >= 3 && w !in StopWords && ' ' !in w
    {
      assert w in ranked;
      assert w in multiset(Dedup(tokens));
      assert w in KeywordTokensOf(text);
      KeywordTokenHasNoSpace(Lower(Text.Normalize(text)), w);
    }
  }

  /** A strictly ranked list is cut into a head that ranks above everything in its tail. */
  lemma TakeOfSorted(freq: map<string, nat>, ranked: seq<string>, n: nat, w: string, v: string)
    requires SortedByRank(freq, ranked)
    requires w in ranked && w !in Take(ranked, n) && v in Take(ranked, n)
    ensures RanksBefore(freq, v, w)
  {
    var head := Take(ranked, n);
    var a :| 0 <= a < |ranked| && ranked[a] == w;
    var b :| 0 <= b < |head| && head[b] == v;
    assert ranked[b] == v;
  }

  lemma TakeSorted(freq: map<string, nat>, ranked: seq<string>, n: nat)
    requires SortedByRank(freq, ranked)
    ensures SortedByRank(freq, Take(ranked, n))
  {
    var head := Take(ranked, n);
    forall i, j | 0 <= i < j < |head|
      ensures RanksBefore(freq, head[i], head[j])
    {
      assert head[i] == ranked[i] && head[j] == ranked[j];
    }
  }

  /**
   * The single words are the top of the ranking: in strict rank order, as many
   * as there are distinct counted tokens up to ten, and every counted token
   * left out ranks below every one taken.
   */
  lemma SingleWordsAreTopRanked(text: string)
    ensures var tokens := RankedTokens(text);
      var freq := Frequencies(tokens);
      var single := SingleWords(text);
      && SortedByRank(freq, single)
      && |single| == (if |Dedup(tokens)| <= MaxKeywords then |Dedup(tokens)| else MaxKeywords)
      && forall w, v :: w in tokens && w !in single && v in single ==> RanksBefore(freq, v, w)
  {
    var tokens := RankedTokens(text);
    var freq := Frequencies(tokens);
    var distinct := Dedup(tokens);
    var ranked := SortRanked(freq, distinct);
    SortRankedSorted(freq, distinct);
    var single := Take(ranked, MaxKeywords);
    assert |ranked| == |distinct| by {
      assert |multiset(ranked)| == |multiset(distinct)|;
    }
    TakeSorted(freq, ranked, MaxKeywords);
    forall w, v | w in tokens && w !in single && v in single
      ensures RanksBefore(freq, v, w)
    {
      assert w in multiset(ranked) by {
        assert w in distinct;
      }
      TakeOfSorted(freq, ranked, MaxKeywords, w, v);
    }
  }

  /** A phrase is two tokens around one space; a single word has no space. */
  lemma PhraseHasSpace(sentence: string)
    ensures SentencePhrase(sentence).Some? ==> ' ' in SentencePhrase(sentence).value
  {
    var words := DropStopWords(KeywordTokensOf(sentence));
    if |words| >= 2 {
      var p := words[0] + " " + words[1];
      assert p[|words[0]|] == ' ';
    }
  }

  lemma PhrasesHaveSpaces(sentences: seq<string>)
    ensures forall p :: p in Phrases(sentences) ==> ' ' in p
  {
    forall p | p in Phrases(sentences)
      ensures ' ' in p
    {
      var i := CollectOrigin(sentences, SentencePhrase, p);
      PhraseHasSpace(sentences[i]);
    }
  }

  /**
   * All phrases come before all single words: the result is the distinct
   * phrases in sentence order, followed by the single words in rank order,
   * cut at ten.
   */
  lemma KeywordsLayout(text: string)
    ensures Keywords(text) == Take(Dedup(Phrases(Text.SplitSentences(text))) + SingleWords(text), MaxKeywords)
  {
    var phrases := Phrases(Text.SplitSentences(text));
    var single := SingleWords(text);
    var tokens := RankedTokens(text);
    SingleWordsAreTopRanked(text);
    SortedDistinct(Frequencies(tokens), single);
    SingleWordsAreContentTokens(text);
    PhrasesHaveSpaces(Text.SplitSentences(text));
    DedupAppend(phrases, single);
  }

  /** Every keyword is a phrase of some sentence or one of the ranked single words. */
  lemma KeywordsOrigin(text: string)
    ensures forall k :: k in Keywords(text) ==>
      (exists i :: 0 <= i < |Text.SplitSentences(text)| && SentencePhrase(Text.SplitSentences(text)[i]) == Some(k))
      || k in SingleWords(text)
  {
    var sentences := Text.SplitSentences(text);
    forall k | k in Keywords(text)
      ensures (exists i :: 0 <= i < |sentences| && SentencePhrase(sentences[i]) == Some(k)) || k in SingleWords(text)
    {
      if k in Phrases(sentences) {
        var i := CollectOrigin(sentences, SentencePhrase, k);
      }
    }
  }
}
