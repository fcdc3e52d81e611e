/** Sequence helpers for the list idioms of app/providers/simple.py. */
module Seqs {

  import opened Wrappers

  /** Python's slice `s[:n]`: the first `n` elements, or all of them when there are fewer. */
  function Take<T>(s: seq<T>, n: nat): (r: seq<T>)
    ensures |r| == if |s| <= n then |s| else n
    ensures r == s[..|r|]
  {
    if |s| <= n then s else s[..n]
  }

  /** No element occurs twice. */
  predicate Distinct<T(==)>(s: seq<T>)
  {
    forall i, j :: 0 <= i < j < |s| ==> s[i] != s[j]
  }

  /** A prefix of a sequence without duplicates has none either. */
  lemma TakeDistinct<T>(s: seq<T>, n: nat)
    requires Distinct(s)
    ensures Distinct(Take(s, n))
  {
  }

  /**
   * `seen` followed by the elements of `s` that are not already there, each
   * at its first occurrence: the state of `dict.fromkeys` after `s` is fed to
   * a dictionary whose keys are `seen`.
   */
  function DedupInto<T(==,!new)>(seen: seq<T>, s: seq<T>): (r: seq<T>)
    requires Distinct(seen)
    ensures Distinct(r)
    ensures forall x :: x in r <==> x in seen || x in s
    ensures |seen| <= |r| && r[..|seen|] == seen
    decreases |s|
  {
    if s == [] then seen
    else DedupInto(if s[0] in seen then seen else seen + [s[0]], s[1..])
  }

  /** `list(dict.fromkeys(s))`: the first occurrence of every element, in first-seen order. */
  function Dedup<T(==,!new)>(s: seq<T>): (r: seq<T>)
    ensures Distinct(r)
    ensures forall x :: x in r <==> x in s
  {
    DedupInto([], s)
  }

  /** Feeding `p + q` is feeding `p`, then `q`. */
  lemma {:induction false} DedupIntoAppend<T(!new)>(seen: seq<T>, p: seq<T>, q: seq<T>)
    requires Distinct(seen)
    ensures DedupInto(seen, p + q) == DedupInto(DedupInto(seen, p), q)
    decreases |p|
  {
    if p == [] {
      assert p + q == q;
    } else {
      assert (p + q)[0] == p[0];
      assert (p + q)[1..] == p[1..] + q;
      DedupIntoAppend(if p[0] in seen then seen else seen + [p[0]], p[1..], q);
    }
  }

  /** Elements that are all new are appended unchanged. */
  lemma {:induction false} DedupIntoFresh<T(!new)>(seen: seq<T>, q: seq<T>)
    requires Distinct(seen) && Distinct(q)
    requires forall x :: x in q ==> x !in seen
    ensures DedupInto(seen, q) == seen + q
    decreases |q|
  {
    if q == [] {
      assert seen + q == seen;
    } else {
      assert q[0] !in q[1..] by {
        forall i | 0 <= i < |q[1..]|
          ensures q[1..][i] != q[0]
        {
          assert q[1..][i] == q[i + 1];
        }
      }
      var seen' := seen + [q[0]];
      assert q[0] in q && q[0] !in seen;
      assert Distinct(seen') by {
        forall i, j | 0 <= i < j < |seen'|
          ensures seen'[i] != seen'[j]
        {
          if j == |seen| {
            assert seen'[i] == seen[i];
          }
        }
      }
      assert Distinct(q[1..]);
      assert forall x :: x in q[1..] ==> x in q && x != q[0];
      DedupIntoFresh(seen', q[1..]);
      AppendCons(seen, q);
    }
  }

  /** A prefix one longer is the prefix and the next element. */
  lemma PrefixSnoc<T>(s: seq<T>, k: nat)
    requires k < |s|
    ensures s[..k + 1] == s[..k] + [s[k]]
  {
  }

  lemma AppendCons<T>(a: seq<T>, q: seq<T>)
    requires q != []
    ensures (a + [q[0]]) + q[1..] == a + q
  {
    assert q == [q[0]] + q[1..];
  }

  lemma AppendAssoc<T>(x: seq<T>, y: seq<T>, z: seq<T>)
    ensures x + (y + z) == (x + y) + z
  {
  }

  /**
   * Deduplicating `p + q`, where `q` has no duplicates and shares nothing with
   * `p`, keeps all of `q` after the deduplicated `p`.
   */
  lemma DedupAppend<T(!new)>(p: seq<T>, q: seq<T>)
    requires Distinct(q)
    requires forall x :: x in q ==> x !in p
    ensures Dedup(p + q) == Dedup(p) + q
  {
    DedupIntoAppend([], p, q);
    DedupIntoFresh(Dedup(p), q);
  }

  /** Deduplicating one more element appends it exactly when it has not been seen. */
  lemma DedupSnoc<T(!new)>(s: seq<T>, x: T)
    ensures Dedup(s + [x]) == if x in s then Dedup(s) else Dedup(s) + [x]
  {
    DedupIntoAppend([], s, [x]);
    var d := Dedup(s);
    assert [x][1..] == [];
    assert DedupInto(d, [x]) == DedupInto(if x in d then d else d + [x], []);
  }

  /** A sequence without duplicates is its own deduplication. */
  lemma DedupOfDistinct<T(!new)>(s: seq<T>)
    requires Distinct(s)
    ensures Dedup(s) == s
  {
    DedupIntoFresh([], s);
    assert [] + s == s;
  }

  /** Deduplication keeps first-seen order: extending the input only extends the output. */
  lemma DedupPrefix<T(!new)>(s: seq<T>, t: seq<T>)
    ensures |Dedup(s)| <= |Dedup(s + t)| && Dedup(s + t)[..|Dedup(s)|] == Dedup(s)
  {
    DedupIntoAppend([], s, t);
  }

  /** The values `f` yields over `s`, in order: a comprehension that keeps the `Some` results. */
  function Collect<A, B>(s: seq<A>, f: A -> Option<B>): (r: seq<B>)
    ensures |r| <= |s|
  {
    if s == [] then []
    else (if f(s[0]).Some? then [f(s[0]).value] else []) + Collect(s[1..], f)
  }

  lemma {:induction false} CollectAppend<A, B>(s: seq<A>, t: seq<A>, f: A -> Option<B>)
    ensures Collect(s + t, f) == Collect(s, f) + Collect(t, f)
    decreases |s|
  {
    if s == [] {
      assert s + t == t;
    } else {
      var head := if f(s[0]).Some? then [f(s[0]).value] else [];
      assert (s + t)[0] == s[0];
      assert (s + t)[1..] == s[1..] + t;
      CollectAppend(s[1..], t, f);
      calc {
        Collect(s + t, f);
        head + Collect(s[1..] + t, f);
        head + (Collect(s[1..], f) + Collect(t, f));
        (head + Collect(s[1..], f)) + Collect(t, f);
      }
    }
  }

  /** One more element adds its value, if it yields one, at the end. */
  lemma CollectSnoc<A, B>(s: seq<A>, k: nat, f: A -> Option<B>)
    requires k < |s|
    ensures Collect(s[..k + 1], f) == Collect(s[..k], f) + (if f(s[k]).Some? then [f(s[k]).value] else [])
  {
    PrefixSnoc(s, k);
    CollectAppend(s[..k], [s[k]], f);
    assert [s[k]][1..] == [];
  }

  /** Collecting over the whole of `s` as a prefix is collecting over `s`. */
  lemma CollectWhole<A, B>(s: seq<A>, f: A -> Option<B>)
    ensures Collect(s[..|s|], f) == Collect(s, f)
  {
    assert s[..|s|] == s;
  }

  /** Every collected value comes from some element. */
  lemma {:induction false} CollectOrigin<A, B>(s: seq<A>, f: A -> Option<B>, b: B) returns (i: nat)
    requires b in Collect(s, f)
    ensures i < |s| && f(s[i]) == Some(b)
    decreases |s|
  {
    if f(s[0]).Some? && f(s[0]).value == b {
      i := 0;
    } else {
      var j := CollectOrigin(s[1..], f, b);
      i := j + 1;
    }
  }

  /** `freq.get(w, 0)`. */
  function Frequency<T>(freq: map<T, nat>, w: T): nat
  {
    if w in freq then freq[w] else 0
  }

  /** The frequency table of `ws`: each distinct element with its number of occurrences. */
  function Frequencies<T(==,!new)>(ws: seq<T>): (freq: map<T, nat>)
    ensures forall w :: w in freq <==> w in ws
  {
    map w | w in ws :: multiset(ws)[w]
  }

  /** Counting one more element increments its entry, creating it at one. */
  lemma FrequenciesSnoc<T(!new)>(ws: seq<T>, w: T)
    ensures Frequencies(ws + [w]) == Frequencies(ws)[w := Frequency(Frequencies(ws), w) + 1]
  {
    var before := Frequencies(ws);
    var after := Frequencies(ws + [w]);
    var expected := before[w := Frequency(before, w) + 1];
    assert multiset(ws + [w]) == multiset(ws) + multiset{w};
    forall x | x in after
      ensures x in expected && after[x] == expected[x]
    {
      if x != w {
        assert x in ws;
      } else if w !in ws {
        assert multiset(ws)[w] == 0;
      }
    }
    assert after.Keys == expected.Keys;
  }

  /** `list(dict.fromkeys(s))[:n]`: the first `n` distinct elements, in order of first occurrence. */
  function TakeDedup<T(==,!new)>(s: seq<T>, n: nat): (r: seq<T>)
    ensures |r| <= n && Distinct(r)
    ensures forall x :: x in r ==> x in s
  {
    TakeDistinct(Dedup(s), n);
    Take(Dedup(s), n)
  }
}
