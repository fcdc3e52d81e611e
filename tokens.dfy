/**
 * The word lists and the two tokenisers of app/providers/simple.py.
 *
 * The source tokenises with `re.findall` over two character classes; both
 * patterns are written here as left-to-right scanners.  Lower-casing is
 * Python's `str.lower()` restricted to ASCII.
 */
module Tokens {

  import Text

  /** `_POSITIVE` (simple.py:9-20). */
  const PositiveWords: set<string> :=
    {"good", "great", "excellent", "love", "like", "awesome", "amazing", "happy", "satisfied", "fantastic"}

  /** `_NEGATIVE` (simple.py:22-33). */
  const NegativeWords: set<string> :=
    {"bad", "terrible", "awful", "hate", "dislike", "sad", "angry", "slow", "bug", "issue"}

  /** `_STOPWORDS` (simple.py:35-55): nineteen function words. */
  const StopWords: set<string> :=
    {"the", "is", "a", "an", "and", "or", "of", "to", "in", "on",
     "for", "with", "that", "this", "it", "as", "at", "by", "from"}

  predicate IsAsciiLetter(c: char)
  {
    ('a' <= c <= 'z') || ('A' <= c <= 'Z')
  }

  /** The class `[a-zA-Z']` of the sentiment tokeniser. */
  predicate IsWordChar(c: char)
  {
    IsAsciiLetter(c) || c == '\''
  }

  /** The class `[a-zA-Z\-']` of the keyword tokeniser's tail. */
  predicate IsKeywordChar(c: char)
  {
    IsAsciiLetter(c) || c == '-' || c == '\''
  }

  function LowerChar(c: char): char
  {
    if 'A' <= c <= 'Z' then (c as int + 32) as char else c
  }

  /** `s.lower()` on ASCII letters; every other character is kept. */
  function Lower(s: string): string
  {
    seq(|s|, i requires 0 <= i < |s| => LowerChar(s[i]))
  }

  /** The length of the longest prefix of `s` whose characters are all in the class. */
  function Span(s: string, inClass: char -> bool): (n: nat)
    ensures n <= |s|
    ensures forall i :: 0 <= i < n ==> inClass(s[i])
    ensures n < |s| ==> !inClass(s[n])
  {
    if s != [] && inClass(s[0]) then 1 + Span(s[1..], inClass) else 0
  }

  /** `re.findall(r"[a-zA-Z']+", s)`: the maximal runs of letters and apostrophes. */
  function WordTokens(s: string): (ws: seq<string>)
    ensures forall w :: w in ws ==> w != [] && forall i :: 0 <= i < |w| ==> IsWordChar(w[i])
    decreases |s|
  {
    if s == [] then []
    else if !IsWordChar(s[0]) then WordTokens(s[1..])
    else
      var n := Span(s, IsWordChar);
      [s[..n]] + WordTokens(s[n..])
  }

  /**
   * `re.findall(r"[a-zA-Z][a-zA-Z\-']+", s)`: a letter followed by the longest
   * non-empty run of letters, hyphens and apostrophes; where no match starts,
   * the scan moves on by one character.
   */
  function KeywordTokens(s: string): (ws: seq<string>)
    ensures forall w :: w in ws ==>
      |w| >= 2 && IsAsciiLetter(w[0]) && forall i :: 0 <= i < |w| ==> IsKeywordChar(w[i])
    decreases |s|
  {
    if |s| < 2 then []
    else if IsAsciiLetter(s[0]) && IsKeywordChar(s[1]) then
      var n := 1 + Span(s[1..], IsKeywordChar);
      [s[..n]] + KeywordTokens(s[n..])
    else KeywordTokens(s[1..])
  }

  /** The characters of `s` in the class `[a-zA-Z']`, in order. */
  function WordChars(s: string): string
  {
    if s == [] then [] else (if IsWordChar(s[0]) then [s[0]] else []) + WordChars(s[1..])
  }

  lemma {:induction false} WordCharsConcat(a: string, b: string)
    ensures WordChars(a + b) == WordChars(a) + WordChars(b)
    decreases |a|
  {
    if a == [] {
      assert a + b == b;
    } else {
      var head := if IsWordChar(a[0]) then [a[0]] else [];
      assert (a + b)[0] == a[0];
      assert (a + b)[1..] == a[1..] + b;
      WordCharsConcat(a[1..], b);
      calc {
        WordChars(a + b);
        head + WordChars(a[1..] + b);
        head + (WordChars(a[1..]) + WordChars(b));
        (head + WordChars(a[1..])) + WordChars(b);
      }
    }
  }

  lemma {:induction false} WordCharsOfRun(s: string)
    requires forall i :: 0 <= i < |s| ==> IsWordChar(s[i])
    ensures WordChars(s) == s
    decreases |s|
  {
    if s != [] {
      WordCharsOfRun(s[1..]);
    }
  }

  /**
   * The sentiment tokens are exactly the runs of the class: laid end to end
   * they give every letter and apostrophe of the input, in order, and nothing
   * else.
   */
  lemma {:induction false} WordTokensCover(s: string)
    ensures Text.Flatten(WordTokens(s)) == WordChars(s)
    decreases |s|
  {
    if s == [] {
    } else if !IsWordChar(s[0]) {
      WordTokensCover(s[1..]);
    } else {
      var n := Span(s, IsWordChar);
      var rest := WordTokens(s[n..]);
      WordTokensCover(s[n..]);
      assert ([s[..n]] + rest)[1..] == rest;
      assert Text.Flatten([s[..n]] + rest) == s[..n] + Text.Flatten(rest);
      assert s == s[..n] + s[n..];
      WordCharsConcat(s[..n], s[n..]);
      WordCharsOfRun(s[..n]);
    }
  }

  /** A keyword token contains no space, so it can never equal a two-word phrase. */
  lemma KeywordTokenHasNoSpace(s: string, w: string)
    requires w in KeywordTokens(s)
    ensures ' ' !in w
  {
  }

  // ---------------------------------------------------------------------------
  // Tokenising text made of words and separators

  /** A run of the class followed by a character outside it is spanned exactly. */
  lemma {:induction false} SpanOfRun(w: string, rest: string, inClass: char -> bool)
    requires forall i :: 0 <= i < |w| ==> inClass(w[i])
    requires rest == [] || !inClass(rest[0])
    ensures Span(w + rest, inClass) == |w|
    decreases |w|
  {
    if w == [] {
      assert w + rest == rest;
    } else {
      assert (w + rest)[1..] == w[1..] + rest;
      SpanOfRun(w[1..], rest, inClass);
    }
  }

  /** Characters outside `[a-zA-Z']` produce no token. */
  lemma {:induction false} WordTokensSkip(sep: string, rest: string)
    requires forall i :: 0 <= i < |sep| ==> !IsWordChar(sep[i])
    ensures WordTokens(sep + rest) == WordTokens(rest)
    decreases |sep|
  {
    if sep == [] {
      assert sep + rest == rest;
    } else {
      assert (sep + rest)[0] == sep[0];
      assert (sep + rest)[1..] == sep[1..] + rest;
      WordTokensSkip(sep[1..], rest);
    }
  }

  /** A word followed by a separator is one token, and the scan resumes after the separator. */
  lemma WordTokensRun(w: string, sep: string, rest: string)
    requires w != [] && forall i :: 0 <= i < |w| ==> IsWordChar(w[i])
    requires sep != [] && forall i :: 0 <= i < |sep| ==> !IsWordChar(sep[i])
    ensures WordTokens(w + sep + rest) == [w] + WordTokens(rest)
  {
    var s := w + sep + rest;
    assert s == w + (sep + rest);
    SpanOfRun(w, sep + rest, IsWordChar);
    assert s[..|w|] == w && s[|w|..] == sep + rest;
    WordTokensSkip(sep, rest);
  }

  /** A word on its own is one token. */
  lemma WordTokensWord(w: string)
    requires w != [] && forall i :: 0 <= i < |w| ==> IsWordChar(w[i])
    ensures WordTokens(w) == [w]
  {
    SpanOfRun(w, [], IsWordChar);
    assert w + [] == w;
    assert w[..|w|] == w && w[|w|..] == [];
  }

  /** Where no character is an ASCII letter, no keyword token can start. */
  lemma {:induction false} KeywordTokensSkip(sep: string, rest: string)
    requires forall i :: 0 <= i < |sep| ==> !IsAsciiLetter(sep[i])
    ensures KeywordTokens(sep + rest) == KeywordTokens(rest)
    decreases |sep|
  {
    if sep == [] {
      assert sep + rest == rest;
    } else if |sep + rest| < 2 {
      assert rest == [];
    } else {
      assert (sep + rest)[0] == sep[0];
      assert (sep + rest)[1..] == sep[1..] + rest;
      KeywordTokensSkip(sep[1..], rest);
    }
  }

  /**
   * A letter followed by at least one more letter, hyphen or apostrophe, and then
   * by a separator that holds no letter and does not start with one of those
   * characters, is one keyword token; the scan resumes after the separator.
   */
  lemma KeywordTokensRun(w: string, sep: string, rest: string)
    requires |w| >= 2 && IsAsciiLetter(w[0]) && forall i :: 0 <= i < |w| ==> IsKeywordChar(w[i])
    requires sep != [] && !IsKeywordChar(sep[0])
    requires forall i :: 0 <= i < |sep| ==> !IsAsciiLetter(sep[i])
    ensures KeywordTokens(w + sep + rest) == [w] + KeywordTokens(rest)
  {
    var s := w + sep + rest;
    var tail := sep + rest;
    assert s == w + tail;
    assert s[1..] == w[1..] + tail;
    SpanOfRun(w[1..], tail, IsKeywordChar);
    assert s[..|w|] == w && s[|w|..] == tail;
    KeywordTokensSkip(sep, rest);
  }

  /** A single letter followed by a separator as above starts no keyword token. */
  lemma KeywordTokensLoneLetter(c: char, sep: string, rest: string)
    requires IsAsciiLetter(c)
    requires sep != [] && !IsKeywordChar(sep[0])
    requires forall i :: 0 <= i < |sep| ==> !IsAsciiLetter(sep[i])
    ensures KeywordTokens([c] + sep + rest) == KeywordTokens(rest)
  {
    var s := [c] + sep + rest;
    assert s[0] == c && s[1] == sep[0];
    assert s[1..] == sep + rest;
    KeywordTokensSkip(sep, rest);
  }

  /** Fewer than two characters hold no keyword token, so a trailing single letter gives none. */
  lemma KeywordTokensShort(s: string)
    requires |s| < 2
    ensures KeywordTokens(s) == []
  {
  }

  /** A letter-led word of at least two keyword characters, on its own, is one keyword token. */
  lemma KeywordTokensWord(w: string)
    requires |w| >= 2 && IsAsciiLetter(w[0]) && forall i :: 0 <= i < |w| ==> IsKeywordChar(w[i])
    ensures KeywordTokens(w) == [w]
  {
    assert w[1..] + [] == w[1..];
    SpanOfRun(w[1..], [], IsKeywordChar);
    assert w[..|w|] == w && w[|w|..] == [];
  }

  /** Words and the separators after them, laid end to end. */
  function Interleave(ws: seq<string>, seps: seq<string>): string
    requires |ws| == |seps|
  {
    if ws == [] then [] else ws[0] + seps[0] + Interleave(ws[1..], seps[1..])
  }

  predicate AllWordChars(w: string)
  {
    forall n :: 0 <= n < |w| ==> IsWordChar(w[n])
  }

  predicate NoWordChars(w: string)
  {
    forall n :: 0 <= n < |w| ==> !IsWordChar(w[n])
  }

  /** The sentiment tokens of words separated by non-word characters are those words. */
  lemma {:induction false} WordTokensInterleave(ws: seq<string>, seps: seq<string>)
    requires |ws| == |seps|
    requires forall i :: 0 <= i < |ws| ==> ws[i] != [] && AllWordChars(ws[i])
    requires forall i :: 0 <= i < |seps| ==> seps[i] != [] && NoWordChars(seps[i])
    ensures WordTokens(Interleave(ws, seps)) == ws
    decreases |ws|
  {
    if ws != [] {
      WordTokensInterleave(ws[1..], seps[1..]);
      WordTokensRun(ws[0], seps[0], Interleave(ws[1..], seps[1..]));
      assert ws == [ws[0]] + ws[1..];
    }
  }

  function LowerAll(ws: seq<string>): (r: seq<string>)
    ensures |r| == |ws| && forall i :: 0 <= i < |ws| ==> r[i] == Lower(ws[i])
  {
    if ws == [] then [] else [Lower(ws[0])] + LowerAll(ws[1..])
  }

  lemma LowerConcat(a: string, b: string)
    ensures Lower(a + b) == Lower(a) + Lower(b)
  {
  }

  lemma {:induction false} LowerInterleave(ws: seq<string>, seps: seq<string>)
    requires |ws| == |seps|
    ensures Lower(Interleave(ws, seps)) == Interleave(LowerAll(ws), LowerAll(seps))
    decreases |ws|
  {
    if ws != [] {
      LowerInterleave(ws[1..], seps[1..]);
      LowerConcat(ws[0] + seps[0], Interleave(ws[1..], seps[1..]));
      LowerConcat(ws[0], seps[0]);
      assert LowerAll(ws)[1..] == LowerAll(ws[1..]);
      assert LowerAll(seps)[1..] == LowerAll(seps[1..]);
    }
  }

  /**
   * Lower-casing keeps the length, turns each upper-case ASCII letter into
   * the same letter in lower case, changes no other character, and applying
   * it twice is applying it once.
   */
  lemma LowerShape(s: string)
    ensures |Lower(s)| == |s|
    ensures forall i :: 0 <= i < |s| ==> !('A' <= Lower(s)[i] <= 'Z')
    ensures forall i :: 0 <= i < |s| && 'A' <= s[i] <= 'Z' ==> Lower(s)[i] == (s[i] as int + 32) as char
    ensures forall i :: 0 <= i < |s| && !('A' <= s[i] <= 'Z') ==> Lower(s)[i] == s[i]
    ensures Lower(Lower(s)) == Lower(s)
  {
  }

  lemma LowerKeepsClasses(w: string)
    ensures AllWordChars(w) ==> AllWordChars(Lower(w))
    ensures NoWordChars(w) ==> NoWordChars(Lower(w))
    ensures |Lower(w)| == |w|
  {
  }

  /** The sentiment tokens of normalised text made of words and separators. */
  lemma TokensOfInterleave(ws: seq<string>, seps: seq<string>)
    requires |ws| == |seps|
    requires forall i :: 0 <= i < |ws| ==> ws[i] != [] && AllWordChars(ws[i])
    requires forall i :: 0 <= i < |seps| ==> seps[i] != [] && NoWordChars(seps[i])
    ensures WordTokens(Lower(Interleave(ws, seps))) == LowerAll(ws)
  {
    LowerInterleave(ws, seps);
    var lws := LowerAll(ws);
    var lseps := LowerAll(seps);
    forall i | 0 <= i < |lws|
      ensures lws[i] != [] && AllWordChars(lws[i])
    {
      LowerKeepsClasses(ws[i]);
    }
    forall i | 0 <= i < |lseps|
      ensures lseps[i] != [] && NoWordChars(lseps[i])
    {
      LowerKeepsClasses(seps[i]);
    }
    WordTokensInterleave(lws, lseps);
  }

  /** A string without upper-case letters is its own lower-casing. */
  lemma LowerOfLowercase(w: string)
    requires forall n :: 0 <= n < |w| ==> !('A' <= w[n] <= 'Z')
    ensures Lower(w) == w
  {
  }

  /** Joining two strings spaced like normalised text keeps the spacing, unless a space meets a space. */
  lemma SpacingConcat(a: string, b: string)
    requires Text.OnlyPlainSpaces(a) && Text.NoDoubleSpace(a)
    requires Text.OnlyPlainSpaces(b) && Text.NoDoubleSpace(b)
    requires a == [] || b == [] || a[|a| - 1] != ' ' || b[0] != ' '
    ensures Text.OnlyPlainSpaces(a + b) && Text.NoDoubleSpace(a + b)
  {
    var t := a + b;
    forall i | 0 <= i < |t| - 1
      ensures !(t[i] == ' ' && t[i + 1] == ' ')
    {
      if i + 1 < |a| {
        assert t[i] == a[i] && t[i + 1] == a[i + 1];
      } else if i >= |a| {
        assert t[i] == b[i - |a|] && t[i + 1] == b[i + 1 - |a|];
      }
    }
  }

  lemma WordIsSpaced(w: string)
    requires AllWordChars(w)
    ensures Text.OnlyPlainSpaces(w) && Text.NoDoubleSpace(w)
    ensures forall n :: 0 <= n < |w| ==> !Text.IsSpace(w[n])
  {
  }

  /**
   * Words joined by separators spaced like normalised text are spaced like
   * normalised text, and begin with the first word.
   */
  lemma {:induction false} InterleaveSpacing(ws: seq<string>, seps: seq<string>)
    requires |ws| == |seps|
    requires forall i :: 0 <= i < |ws| ==> ws[i] != [] && AllWordChars(ws[i])
    requires forall i :: 0 <= i < |seps| ==> Text.OnlyPlainSpaces(seps[i]) && Text.NoDoubleSpace(seps[i])
    ensures var t := Interleave(ws, seps);
      Text.OnlyPlainSpaces(t) && Text.NoDoubleSpace(t) && (ws != [] ==> t != [] && t[0] == ws[0][0])
    decreases |ws|
  {
    if ws != [] {
      var w, sep := ws[0], seps[0];
      var rest := Interleave(ws[1..], seps[1..]);
      InterleaveSpacing(ws[1..], seps[1..]);
      WordIsSpaced(w);
      SpacingConcat(w, sep);
      if rest != [] {
        assert ws[1..][0] == ws[1];
        WordIsSpaced(ws[1]);
      }
      SpacingConcat(w + sep, rest);
    }
  }

  /** Words joined by separators, the last of which does not end in whitespace, do not end in whitespace. */
  lemma {:induction false} InterleaveEnd(ws: seq<string>, seps: seq<string>)
    requires |ws| == |seps|
    requires forall i :: 0 <= i < |ws| ==> ws[i] != [] && AllWordChars(ws[i])
    requires seps != [] ==> var last := seps[|seps| - 1]; last == [] || !Text.IsSpace(last[|last| - 1])
    ensures var t := Interleave(ws, seps); t == [] || !Text.IsSpace(t[|t| - 1])
    decreases |ws|
  {
    if ws != [] {
      var w, sep := ws[0], seps[0];
      var rest := Interleave(ws[1..], seps[1..]);
      InterleaveEnd(ws[1..], seps[1..]);
      WordIsSpaced(w);
      if |ws| > 1 {
        assert ws[1..][0] == ws[1];
        assert rest != [];
      }
    }
  }

  /** Words joined by well-spaced separators, the last not ending in whitespace, form normalised text. */
  lemma InterleaveNormalized(ws: seq<string>, seps: seq<string>)
    requires |ws| == |seps|
    requires forall i :: 0 <= i < |ws| ==> ws[i] != [] && AllWordChars(ws[i])
    requires forall i :: 0 <= i < |seps| ==> Text.OnlyPlainSpaces(seps[i]) && Text.NoDoubleSpace(seps[i])
    requires seps != [] ==> var last := seps[|seps| - 1]; last == [] || !Text.IsSpace(last[|last| - 1])
    ensures Text.IsNormalized(Interleave(ws, seps))
  {
    InterleaveSpacing(ws, seps);
    InterleaveEnd(ws, seps);
    if ws != [] {
      WordIsSpaced(ws[0]);
    }
  }
}
