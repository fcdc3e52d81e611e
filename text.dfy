/**
 * The text utilities of app/utils/text.py: whitespace normalisation and the
 * punctuation-based sentence splitter shared by every provider.
 *
 * Both Python functions are a regular-expression substitution or split
 * followed by `str.strip()`.  Here each regular expression is written out as a
 * recursive function that scans the string from the left.
 */
module Text {

  import Seqs

  /** The characters Python's `\s` (on `str`) and `str.strip()` treat as whitespace. */
  predicate IsSpace(c: char)
  {
    || c == ' '
    || ('\t' <= c <= '\r')
    || ('\U{1c}' <= c <= '\U{1f}')
    || c == '\U{85}'
    || c == '\U{a0}'
    || c == '\U{1680}'
    || ('\U{2000}' <= c <= '\U{200a}')
    || c == '\U{2028}'
    || c == '\U{2029}'
    || c == '\U{202f}'
    || c == '\U{205f}'
    || c == '\U{3000}'
  }

  /** The character class `[\.!?]` of the sentence splitter's look-behind. */
  predicate IsTerminator(c: char)
  {
    c == '.' || c == '!' || c == '?'
  }

  /** `s` without its leading whitespace. */
  function TrimStart(s: string): (r: string)
    ensures |r| <= |s| && r == s[|s| - |r|..]
    ensures r == [] || !IsSpace(r[0])
    ensures forall i :: 0 <= i < |s| - |r| ==> IsSpace(s[i])
  {
    if s != [] && IsSpace(s[0]) then
      var r := TrimStart(s[1..]);
      assert s[1..][|s| - 1 - |r|..] == s[|s| - |r|..];
      assert forall i :: 1 <= i < |s| - |r| ==> s[i] == s[1..][i - 1];
      r
    else s
  }

  /** `s` without its trailing whitespace. */
  function TrimEnd(s: string): (r: string)
    ensures |r| <= |s| && r == s[..|r|]
    ensures r == [] || !IsSpace(r[|r| - 1])
    ensures forall i :: |r| <= i < |s| ==> IsSpace(s[i])
  {
    if s != [] && IsSpace(s[|s| - 1]) then
      var r := TrimEnd(s[..|s| - 1]);
      assert s[..|s| - 1][..|r|] == s[..|r|];
      assert forall i :: |r| <= i < |s| - 1 ==> s[i] == s[..|s| - 1][i];
      r
    else s
  }

  /** Python's `str.strip()` with no argument. */
  function Strip(s: string): string
  {
    TrimEnd(TrimStart(s))
  }

  /** `re.sub(r"\s+", " ", s)`: every maximal run of whitespace becomes one space. */
  function CollapseSpaces(s: string): string
    decreases |s|
  {
    if s == [] then []
    else if IsSpace(s[0]) then [' '] + CollapseSpaces(TrimStart(s))
    else [s[0]] + CollapseSpaces(s[1..])
  }

  /** `normalize` at app/utils/text.py:10-11. */
  function Normalize(s: string): string
  {
    Strip(CollapseSpaces(s))
  }

  // ---------------------------------------------------------------------------
  // The shape of a normalised string

  /** No whitespace at either end. */
  predicate Trimmed(t: string)
  {
    t == [] || (!IsSpace(t[0]) && !IsSpace(t[|t| - 1]))
  }

  /** The only whitespace character that occurs is the plain space. */
  predicate OnlyPlainSpaces(t: string)
  {
    forall i :: 0 <= i < |t| && IsSpace(t[i]) ==> t[i] == ' '
  }

  /** No two spaces are adjacent. */
  predicate NoDoubleSpace(t: string)
  {
    forall i :: 0 <= i < |t| - 1 ==> !(t[i] == ' ' && t[i + 1] == ' ')
  }

  predicate IsNormalized(t: string)
  {
    Trimmed(t) && OnlyPlainSpaces(t) && NoDoubleSpace(t)
  }

  lemma {:induction false} CollapseShape(s: string)
    ensures OnlyPlainSpaces(CollapseSpaces(s)) && NoDoubleSpace(CollapseSpaces(s))
    ensures |CollapseSpaces(s)| == 0 <==> |s| == 0
    ensures s != [] && !IsSpace(s[0]) ==> CollapseSpaces(s)[0] == s[0]
    ensures s != [] && IsSpace(s[0]) ==> CollapseSpaces(s)[0] == ' '
    decreases |s|
  {
    if s == [] {
    } else if IsSpace(s[0]) {
      var t := TrimStart(s);
      CollapseShape(t);
      var c := CollapseSpaces(t);
      assert CollapseSpaces(s) == [' '] + c;
      assert c != [] ==> c[0] != ' ' by {
        assert t != [] ==> !IsSpace(t[0]);
      }
    } else {
      CollapseShape(s[1..]);
    }
  }

  /** A slice of a string keeps its spacing properties. */
  lemma SliceKeepsSpacing(t: string, a: nat, b: nat)
    requires a <= b <= |t|
    requires OnlyPlainSpaces(t) && NoDoubleSpace(t)
    ensures OnlyPlainSpaces(t[a..b]) && NoDoubleSpace(t[a..b])
  {
    var u := t[a..b];
    forall i | 0 <= i < |u| - 1
      ensures !(u[i] == ' ' && u[i + 1] == ' ')
    {
      assert u[i] == t[a + i] && u[i + 1] == t[a + i + 1];
    }
  }

  /** Strip returns a contiguous, trimmed slice of its argument. */
  lemma StripIsSlice(s: string) returns (a: nat, b: nat)
    ensures a <= b <= |s| && Strip(s) == s[a..b]
    ensures Trimmed(Strip(s))
  {
    var u := TrimStart(s);
    a, b := TrimmedSlice(s, u, TrimEnd(u));
  }

  /** What `TrimStart` and then `TrimEnd` guarantee makes a trimmed slice. */
  lemma TrimmedSlice(s: string, u: string, v: string) returns (a: nat, b: nat)
    requires |u| <= |s| && u == s[|s| - |u|..] && (u == [] || !IsSpace(u[0]))
    requires |v| <= |u| && v == u[..|v|] && (v == [] || !IsSpace(v[|v| - 1]))
    ensures a <= b <= |s| && v == s[a..b]
    ensures Trimmed(v)
  {
    a := |s| - |u|;
    b := a + |v|;
    PrefixOfSuffix(s, u, v);
    TrimmedPrefix(u, v);
  }

  /** A prefix of a string that starts visible, itself ending visible, is trimmed. */
  lemma TrimmedPrefix(u: string, v: string)
    requires u == [] || !IsSpace(u[0])
    requires |v| <= |u| && v == u[..|v|]
    requires v == [] || !IsSpace(v[|v| - 1])
    ensures Trimmed(v)
  {
    if v != [] {
      assert v[0] == u[0];
    }
  }

  /** A prefix of a suffix is a slice. */
  lemma PrefixOfSuffix<T>(s: seq<T>, u: seq<T>, v: seq<T>)
    requires |u| <= |s| && u == s[|s| - |u|..]
    requires |v| <= |u| && v == u[..|v|]
    ensures v == s[|s| - |u|..|s| - |u| + |v|]
  {
  }

  /** The result of `normalize` is trimmed, single-spaced and uses only plain spaces. */
  lemma NormalizeShape(s: string)
    ensures IsNormalized(Normalize(s))
  {
    CollapseShape(s);
    var c := CollapseSpaces(s);
    var a, b := StripIsSlice(c);
    SliceKeepsSpacing(c, a, b);
  }

  lemma {:induction false} CollapseFixed(t: string)
    requires OnlyPlainSpaces(t) && NoDoubleSpace(t)
    ensures CollapseSpaces(t) == t
    decreases |t|
  {
    if t != [] {
      SliceKeepsSpacing(t, 1, |t|);
      CollapseFixed(t[1..]);
      if IsSpace(t[0]) {
        assert t[0] == ' ';
        assert TrimStart(t) == t[1..] by {
          assert |t| > 1 ==> !IsSpace(t[1]);
          if |t| > 1 {
            assert TrimStart(t[1..]) == t[1..];
          }
        }
        assert CollapseSpaces(t) == [' '] + CollapseSpaces(t[1..]);
      } else {
        assert CollapseSpaces(t) == [t[0]] + CollapseSpaces(t[1..]);
      }
      assert t == [t[0]] + t[1..];
    }
  }

  /** A normalised string is left unchanged by `normalize`. */
  lemma NormalizeFixed(t: string)
    requires IsNormalized(t)
    ensures Normalize(t) == t
  {
    CollapseFixed(t);
    assert TrimStart(t) == t;
    assert TrimEnd(t) == t;
  }

  /** `normalize` is idempotent. */
  lemma NormalizeIdempotent(s: string)
    ensures Normalize(Normalize(s)) == Normalize(s)
  {
    NormalizeShape(s);
    NormalizeFixed(Normalize(s));
  }

  // ---------------------------------------------------------------------------
  // Collapsing whitespace, one step at a time

  /** Stripping a leading whitespace run stops exactly at the first visible character. */
  lemma {:induction false} TrimStartOfRun(w: string, r: string)
    requires forall i :: 0 <= i < |w| ==> IsSpace(w[i])
    requires r == [] || !IsSpace(r[0])
    ensures TrimStart(w + r) == r
    decreases |w|
  {
    if w == [] {
      assert w + r == r;
    } else {
      assert (w + r)[0] == w[0];
      assert (w + r)[1..] == w[1..] + r;
      TrimStartOfRun(w[1..], r);
    }
  }

  /** The empty string collapses to itself. */
  lemma CollapseEmpty()
    ensures CollapseSpaces([]) == []
  {
  }

  /** A visible character is kept, and the scan goes on after it. */
  lemma CollapseVisible(c: char, r: string)
    requires !IsSpace(c)
    ensures CollapseSpaces([c] + r) == [c] + CollapseSpaces(r)
  {
    assert ([c] + r)[0] == c && ([c] + r)[1..] == r;
  }

  /**
   * A maximal whitespace run, of any length and any whitespace characters,
   * becomes exactly one plain space, and the scan goes on after the run.
   */
  lemma CollapseRun(w: string, r: string)
    requires w != [] && forall i :: 0 <= i < |w| ==> IsSpace(w[i])
    requires r == [] || !IsSpace(r[0])
    ensures CollapseSpaces(w + r) == [' '] + CollapseSpaces(r)
  {
    assert (w + r)[0] == w[0];
    TrimStartOfRun(w, r);
  }

  /** A string without whitespace at either end is its own `strip()`. */
  lemma StripTrimmed(t: string)
    requires Trimmed(t)
    ensures Strip(t) == t
  {
    assert TrimStart(t) == t;
    assert TrimEnd(t) == t;
  }

  /** A run of visible characters is kept as it is, and the scan goes on after it. */
  lemma {:induction false} CollapseVisibleRun(x: string, r: string)
    requires forall i :: 0 <= i < |x| ==> !IsSpace(x[i])
    ensures CollapseSpaces(x + r) == x + CollapseSpaces(r)
    decreases |x|
  {
    if x == [] {
      assert x + r == r;
    } else {
      var t := x[1..];
      assert x == [x[0]] + t;
      Seqs.AppendAssoc([x[0]], t, r);
      CollapseVisible(x[0], t + r);
      CollapseVisibleRun(t, r);
      Seqs.AppendAssoc([x[0]], t, CollapseSpaces(r));
    }
  }

  /**
   * Two words separated by any non-empty run of whitespace normalise to the
   * two words joined by exactly one space.
   */
  lemma NormalizeTwoWords(x: string, w: string, y: string)
    requires x != [] && forall i :: 0 <= i < |x| ==> !IsSpace(x[i])
    requires w != [] && forall i :: 0 <= i < |w| ==> IsSpace(w[i])
    requires y != [] && forall i :: 0 <= i < |y| ==> !IsSpace(y[i])
    ensures Normalize(x + w + y) == x + " " + y
  {
    Seqs.AppendAssoc(x, w, y);
    CollapseVisibleRun(x, w + y);
    CollapseRun(w, y);
    assert y + [] == y;
    CollapseVisibleRun(y, []);
    Seqs.AppendAssoc(x, " ", y);
    var j := x + " " + y;
    assert Trimmed(j) by {
      assert j[0] == x[0] && j[|j| - 1] == y[|y| - 1];
    }
    StripTrimmed(j);
  }

  // ---------------------------------------------------------------------------
  // The non-whitespace characters of a string

  /** The characters of `s` that are not whitespace, in order. */
  function NonSpace(s: string): string
  {
    if s == [] then [] else (if IsSpace(s[0]) then [] else [s[0]]) + NonSpace(s[1..])
  }

  lemma {:induction false} NonSpaceConcat(a: string, b: string)
    ensures NonSpace(a + b) == NonSpace(a) + NonSpace(b)
    decreases |a|
  {
    if a == [] {
      assert a + b == b;
    } else {
      var head := if IsSpace(a[0]) then [] else [a[0]];
      assert (a + b)[0] == a[0];
      assert (a + b)[1..] == a[1..] + b;
      NonSpaceConcat(a[1..], b);
      calc {
        NonSpace(a + b);
        head + NonSpace(a[1..] + b);
        head + (NonSpace(a[1..]) + NonSpace(b));
        (head + NonSpace(a[1..])) + NonSpace(b);
      }
    }
  }

  lemma {:induction false} NonSpaceOfSpaces(s: string)
    requires forall i :: 0 <= i < |s| ==> IsSpace(s[i])
    ensures NonSpace(s) == []
    decreases |s|
  {
    if s != [] {
      NonSpaceOfSpaces(s[1..]);
    }
  }

  lemma NonSpaceTrimStart(s: string)
    ensures NonSpace(TrimStart(s)) == NonSpace(s)
  {
    var u := TrimStart(s);
    var pre := s[..|s| - |u|];
    assert forall i :: 0 <= i < |pre| ==> IsSpace(pre[i]) by {
      forall i | 0 <= i < |pre|
        ensures IsSpace(pre[i])
      {
        assert pre[i] == s[i];
      }
    }
    assert s == pre + u;
    NonSpaceOfSpaces(pre);
    NonSpaceConcat(pre, u);
  }

  lemma NonSpaceTrimEnd(s: string)
    ensures NonSpace(TrimEnd(s)) == NonSpace(s)
  {
    var v := TrimEnd(s);
    var post := s[|v|..];
    assert forall i :: 0 <= i < |post| ==> IsSpace(post[i]) by {
      forall i | 0 <= i < |post|
        ensures IsSpace(post[i])
      {
        assert post[i] == s[|v| + i];
      }
    }
    assert s == v + post;
    NonSpaceOfSpaces(post);
    NonSpaceConcat(v, post);
  }

  lemma NonSpaceStrip(s: string)
    ensures NonSpace(TrimStart(s)) == NonSpace(s)
    ensures NonSpace(Strip(s)) == NonSpace(s)
  {
    NonSpaceTrimStart(s);
    NonSpaceTrimEnd(TrimStart(s));
  }

  lemma {:induction false} NonSpaceCollapse(s: string)
    ensures NonSpace(CollapseSpaces(s)) == NonSpace(s)
    decreases |s|
  {
    if s == [] {
    } else if IsSpace(s[0]) {
      var t := TrimStart(s);
      NonSpaceCollapse(t);
      NonSpaceConcat([' '], CollapseSpaces(t));
      NonSpaceStrip(s);
    } else {
      NonSpaceCollapse(s[1..]);
      NonSpaceConcat([s[0]], CollapseSpaces(s[1..]));
    }
  }

  /** `normalize` keeps every non-whitespace character of its input, in order, and adds none. */
  lemma NormalizeKeepsText(s: string)
    ensures NonSpace(Normalize(s)) == NonSpace(s)
  {
    NonSpaceCollapse(s);
    NonSpaceStrip(CollapseSpaces(s));
  }

  // ---------------------------------------------------------------------------
  // Sentence splitting

  /** The pattern `(?<=[\.!?])\s+` matches starting right after index `i`. */
  predicate BoundaryAt(t: string, i: int)
  {
    0 <= i && i + 1 < |t| && IsTerminator(t[i]) && IsSpace(t[i + 1])
  }

  /** The index of the first terminator at or after `from` that is followed by whitespace, or |t|. */
  function FirstBoundary(t: string, from: nat): (k: nat)
    requires from <= |t|
    ensures from <= k <= |t|
    ensures k < |t| ==> BoundaryAt(t, k)
    ensures forall j :: from <= j < k ==> !BoundaryAt(t, j)
    decreases |t| - from
  {
    if from == |t| then |t|
    else if BoundaryAt(t, from) then from
    else FirstBoundary(t, from + 1)
  }

  /**
   * `re.split(r"(?<=[\.!?])\s+", t)`: cut after each terminator that is
   * followed by whitespace and drop that (maximal) whitespace run.
   */
  function SplitAtBoundaries(t: string): seq<string>
    decreases |t|
  {
    var k := FirstBoundary(t, 0);
    if k == |t| then [t]
    else [t[..k + 1]] + SplitAtBoundaries(TrimStart(t[k + 1..]))
  }

  /** `[p for p in parts if p]`. */
  function DropEmpty(parts: seq<string>): (r: seq<string>)
    ensures forall i :: 0 <= i < |r| ==> r[i] != []
    ensures forall p :: p in r ==> p in parts
  {
    if parts == [] then []
    else (if parts[0] == [] then [] else [parts[0]]) + DropEmpty(parts[1..])
  }

  /** `split_sentences` at app/utils/text.py:5-7. */
  function SplitSentences(text: string): seq<string>
  {
    DropEmpty(SplitAtBoundaries(Strip(text)))
  }

  /** No terminator inside `p` is followed by whitespace. */
  predicate NoInnerBoundary(p: string)
  {
    forall j :: 0 <= j < |p| - 1 ==> !(IsTerminator(p[j]) && IsSpace(p[j + 1]))
  }

  /** The shape every list of sentences has. */
  predicate WellSplit(parts: seq<string>)
  {
    && (forall i :: 0 <= i < |parts| ==> parts[i] != [] && Trimmed(parts[i]) && NoInnerBoundary(parts[i]))
    && (forall i :: 0 <= i < |parts| - 1 ==> IsTerminator(parts[i][|parts[i]| - 1]))
  }

  /** A sentence in front of a well-split list keeps it well split. */
  lemma WellSplitCons(p: string, rest: seq<string>)
    requires p != [] && Trimmed(p) && NoInnerBoundary(p) && WellSplit(rest)
    requires rest != [] ==> IsTerminator(p[|p| - 1])
    ensures WellSplit([p] + rest)
  {
    var parts := [p] + rest;
    forall i | 1 <= i < |parts|
      ensures parts[i] == rest[i - 1]
    {
    }
  }

  /** No boundary before index `k` of `t` means none inside `t[..k + 1]`. */
  lemma PieceHasNoBoundary(t: string, k: nat)
    requires k < |t|
    requires forall j :: 0 <= j < k ==> !BoundaryAt(t, j)
    ensures NoInnerBoundary(t[..k + 1])
  {
    var p := t[..k + 1];
    forall j | 0 <= j < |p| - 1
      ensures !(IsTerminator(p[j]) && IsSpace(p[j + 1]))
    {
      assert !BoundaryAt(t, j);
    }
  }

  /** Without a boundary, the whole text is the one and only sentence. */
  lemma SplitNoBoundary(t: string)
    requires t != [] && Trimmed(t) && FirstBoundary(t, 0) == |t|
    ensures WellSplit(SplitAtBoundaries(t))
  {
    assert SplitAtBoundaries(t) == [t];
    PieceHasNoBoundary(t, |t| - 1);
    assert t[..|t|] == t;
    WellSplitCons(t, []);
  }

  /** At the first boundary the text splits into a finished sentence and a trimmed remainder. */
  lemma SplitFirstBoundary(t: string) returns (p: string, u: string)
    requires t != [] && Trimmed(t) && FirstBoundary(t, 0) < |t|
    ensures p != [] && Trimmed(p) && NoInnerBoundary(p) && IsTerminator(p[|p| - 1])
    ensures u != [] && Trimmed(u) && |u| < |t|
    ensures SplitAtBoundaries(t) == [p] + SplitAtBoundaries(u)
  {
    var k := FirstBoundary(t, 0);
    p := t[..k + 1];
    var w := t[k + 1..];
    u := TrimStart(w);
    assert u != [] && Trimmed(u) by {
      assert w[|w| - 1] == t[|t| - 1];
      assert u != [] && u[|u| - 1] == w[|w| - 1];
    }
    PieceHasNoBoundary(t, k);
    assert Trimmed(p) && IsTerminator(p[|p| - 1]) by {
      assert p[0] == t[0] && p[k] == t[k];
    }
  }

  lemma {:induction false} SplitShape(t: string)
    requires t != [] && Trimmed(t)
    ensures WellSplit(SplitAtBoundaries(t))
    decreases |t|
  {
    if FirstBoundary(t, 0) == |t| {
      SplitNoBoundary(t);
    } else {
      var p, u := SplitFirstBoundary(t);
      SplitShape(u);
      WellSplitCons(p, SplitAtBoundaries(u));
    }
  }

  lemma {:induction false} DropEmptyKeeps(parts: seq<string>)
    requires forall i :: 0 <= i < |parts| ==> parts[i] != []
    ensures DropEmpty(parts) == parts
    decreases |parts|
  {
    if parts != [] {
      DropEmptyKeeps(parts[1..]);
    }
  }

  /** One step of dropping empty parts: the head part, if kept, then the rest. */
  lemma DropEmptyCons(p: string, t: seq<string>)
    ensures DropEmpty([p] + t) == (if p == [] then [] else [p]) + DropEmpty(t)
  {
    assert ([p] + t)[0] == p && ([p] + t)[1..] == t;
  }

  /** Dropping empty parts works part by part and keeps the other parts in order. */
  lemma {:induction false} DropEmptyConcat(a: seq<string>, b: seq<string>)
    ensures DropEmpty(a + b) == DropEmpty(a) + DropEmpty(b)
    decreases |a|
  {
    if a == [] {
      assert a + b == b;
    } else {
      var t := a[1..];
      assert a == [a[0]] + t;
      assert a + b == [a[0]] + (t + b);
      DropEmptyCons(a[0], t + b);
      DropEmptyCons(a[0], t);
      DropEmptyConcat(t, b);
      Seqs.AppendAssoc(if a[0] == [] then [] else [a[0]], DropEmpty(t), DropEmpty(b));
    }
  }

  /** A single part is kept exactly when it is not empty. */
  lemma DropEmptySingle(p: string)
    ensures DropEmpty([p]) == if p == [] then [] else [p]
  {
    assert [p][1..] == [];
  }

  /** Splitting the empty string gives one empty part, which is then dropped. */
  lemma SplitOfEmpty()
    ensures SplitAtBoundaries([]) == [[]]
    ensures DropEmpty([[]]) == []
  {
    assert DropEmpty([[]]) == [] + DropEmpty([]);
  }

  lemma StripEmpty(s: string)
    ensures Strip(s) == [] <==> forall i :: 0 <= i < |s| ==> IsSpace(s[i])
  {
    var u := TrimStart(s);
    if Strip(s) == [] {
      assert u == [];
    }
  }

  /**
   * Every sentence is non-empty, has no whitespace at either end and contains
   * no terminator followed by whitespace; every sentence but the last ends in
   * a terminator.
   */
  lemma SplitSentencesShape(text: string)
    ensures WellSplit(SplitSentences(text))
  {
    var t := Strip(text);
    var _, _ := StripIsSlice(text);
    if t != [] {
      SplitShape(t);
      DropEmptyKeeps(SplitAtBoundaries(t));
    } else {
      SplitOfEmpty();
    }
  }

  /** `split_sentences` returns no sentence exactly when the text is all whitespace. */
  lemma SplitSentencesEmpty(text: string)
    ensures SplitSentences(text) == [] <==> forall i :: 0 <= i < |text| ==> IsSpace(text[i])
  {
    var t := Strip(text);
    StripEmpty(text);
    if t != [] {
      var _, _ := StripIsSlice(text);
      SplitShape(t);
      DropEmptyKeeps(SplitAtBoundaries(t));
      assert SplitAtBoundaries(t) != [];
    } else {
      SplitOfEmpty();
    }
  }

  /** All sentences, one after another. */
  function Flatten(parts: seq<string>): string
  {
    if parts == [] then [] else parts[0] + Flatten(parts[1..])
  }

  lemma {:induction false} SplitKeepsVisible(t: string)
    ensures NonSpace(Flatten(SplitAtBoundaries(t))) == NonSpace(t)
    decreases |t|
  {
    var k := FirstBoundary(t, 0);
    if k == |t| {
      assert Flatten([t]) == t;
    } else {
      var p := t[..k + 1];
      var w := t[k + 1..];
      var u := TrimStart(w);
      var rest := SplitAtBoundaries(u);
      assert t == p + w;
      calc {
        NonSpace(Flatten(SplitAtBoundaries(t)));
        NonSpace(Flatten([p] + rest));
        { FlattenCons(p, rest); }
        NonSpace(p + Flatten(rest));
        { NonSpaceConcat(p, Flatten(rest)); }
        NonSpace(p) + NonSpace(Flatten(rest));
        { SplitKeepsVisible(u); }
        NonSpace(p) + NonSpace(u);
        { NonSpaceTrimStart(w); }
        NonSpace(p) + NonSpace(w);
        { NonSpaceConcat(p, w); }
        NonSpace(t);
      }
    }
  }

  lemma FlattenCons(p: string, rest: seq<string>)
    ensures Flatten([p] + rest) == p + Flatten(rest)
  {
    assert ([p] + rest)[1..] == rest;
  }

  /**
   * Concatenating the sentences gives back the text's non-whitespace
   * characters: splitting loses and reorders nothing but whitespace.
   */
  lemma SplitSentencesKeepText(text: string)
    ensures NonSpace(Flatten(SplitSentences(text))) == NonSpace(text)
  {
    var t := Strip(text);
    NonSpaceStrip(text);
    if t == [] {
      SplitOfEmpty();
    } else {
      var _, _ := StripIsSlice(text);
      SplitShape(t);
      DropEmptyKeeps(SplitAtBoundaries(t));
      SplitKeepsVisible(t);
    }
  }

  /** After a sentence with no inner boundary, ending in a terminator, whitespace makes the first boundary. */
  lemma FirstBoundaryAfterSentence(p: string, w: string, u: string)
    requires p != [] && NoInnerBoundary(p) && IsTerminator(p[|p| - 1])
    requires w != [] && IsSpace(w[0])
    ensures FirstBoundary(p + w + u, 0) == |p| - 1
  {
    var t := p + w + u;
    var k := |p| - 1;
    assert BoundaryAt(t, k) by {
      assert t[k] == p[k] && t[k + 1] == w[0];
    }
    forall j | 0 <= j < k
      ensures !BoundaryAt(t, j)
    {
      assert t[j] == p[j] && t[j + 1] == p[j + 1];
    }
    FirstBoundaryIs(t, k);
  }

  /** One unfolding of the splitter at its first boundary, the last character of `p`. */
  lemma SplitAtFirst(p: string, v: string)
    requires p != [] && FirstBoundary(p + v, 0) == |p| - 1
    ensures SplitAtBoundaries(p + v) == [p] + SplitAtBoundaries(TrimStart(v))
  {
    var t := p + v;
    assert t[..|p|] == p && t[|p|..] == v;
  }

  /** The first boundary is the one with no boundary before it. */
  lemma FirstBoundaryIs(t: string, k: nat)
    requires BoundaryAt(t, k)
    requires forall j :: 0 <= j < k ==> !BoundaryAt(t, j)
    ensures FirstBoundary(t, 0) == k
  {
  }

  /**
   * A sentence ending in a terminator, a whitespace run, and the rest: the
   * first cut falls exactly at that run, which is dropped whole.
   */
  lemma SplitAtBoundariesCons(p: string, w: string, u: string)
    requires p != [] && NoInnerBoundary(p) && IsTerminator(p[|p| - 1])
    requires w != [] && forall i :: 0 <= i < |w| ==> IsSpace(w[i])
    requires u == [] || !IsSpace(u[0])
    ensures SplitAtBoundaries(p + w + u) == [p] + SplitAtBoundaries(u)
  {
    Seqs.AppendAssoc(p, w, u);
    FirstBoundaryAfterSentence(p, w, u);
    SplitAtFirst(p, w + u);
    TrimStartOfRun(w, u);
  }

  /**
   * `split_sentences` cuts a trimmed text after a sentence that ends in a
   * terminator followed by whitespace, and only there: that sentence comes
   * first, and the rest is split on its own.
   */
  lemma SplitSentencesCons(p: string, w: string, u: string)
    requires p != [] && Trimmed(p) && NoInnerBoundary(p) && IsTerminator(p[|p| - 1])
    requires w != [] && forall i :: 0 <= i < |w| ==> IsSpace(w[i])
    requires u != [] && Trimmed(u)
    ensures SplitSentences(p + w + u) == [p] + SplitSentences(u)
  {
    var t := p + w + u;
    assert Trimmed(t) by {
      assert t[0] == p[0] && t[|t| - 1] == u[|u| - 1];
    }
    StripTrimmed(t);
    StripTrimmed(u);
    SplitAtBoundariesCons(p, w, u);
    DropEmptyCons(p, SplitAtBoundaries(u));
  }

  /** Leading and trailing whitespace do not change the sentences. */
  lemma SplitSentencesOfStripped(text: string)
    ensures SplitSentences(text) == SplitSentences(Strip(text))
  {
    var a, b := StripIsSlice(text);
    StripTrimmed(Strip(text));
  }

  /** A trimmed text without a terminator followed by whitespace is one sentence. */
  lemma SplitSentencesSingle(t: string)
    requires t != [] && Trimmed(t) && NoInnerBoundary(t)
    ensures SplitSentences(t) == [t]
  {
    assert TrimStart(t) == t;
    assert TrimEnd(t) == t;
    var k := FirstBoundary(t, 0);
    assert k == |t|;
    assert SplitAtBoundaries(t) == [t];
    DropEmptyKeeps([t]);
  }
}
