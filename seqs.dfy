/** Sequence vocabulary shared by the models: order-preserving selection,
    subsequences, sums, and a sort on a two-level integer key (the
    multi-column `sort_values` calls of the preprocessing code). */
module Seqs {

  /** The elements of s that satisfy p, in their original order. */
  function Filter<T>(s: seq<T>, p: T -> bool): (r: seq<T>)
    ensures |r| <= |s|
  {
    if s == [] then []
    else if p(s[0]) then [s[0]] + Filter(s[1..], p)
    else Filter(s[1..], p)
  }

  /** x is kept exactly when it occurs in s and satisfies p. */
  lemma {:induction false} FilterMem<T>(s: seq<T>, p: T -> bool, x: T)
    ensures x in Filter(s, p) <==> x in s && p(x)
  {
    if s != [] {
      FilterMem(s[1..], p, x);
      assert s == [s[0]] + s[1..];
    }
  }

  /** Selection keeps an ordering: a filter of a sorted sequence is sorted. */
  lemma FilterSorted<T>(s: seq<T>, p: T -> bool, key: T -> (int, int))
    requires SortedBy(s, key)
    ensures SortedBy(Filter(s, p), key)
  {
    var idx := FilterPositions(s, p);
    var f := Filter(s, p);
    forall i, j | 0 <= i < j < |f| ensures KeyLe(key(f[i]), key(f[j])) {
      assert f[i] == s[idx[i]] && f[j] == s[idx[j]] && idx[i] < idx[j];
    }
  }

  lemma {:induction false} FilterAppend<T>(a: seq<T>, b: seq<T>, p: T -> bool)
    ensures Filter(a + b, p) == Filter(a, p) + Filter(b, p)
  {
    if a != [] {
      assert (a + b)[1..] == a[1..] + b;
      FilterAppend(a[1..], b, p);
    } else {
      assert a + b == b;
    }
  }

  /** Keeping the elements that satisfy p and those that do not splits s. */
  lemma {:induction false} FilterComplement<T>(s: seq<T>, p: T -> bool)
    ensures multiset(Filter(s, p)) + multiset(Filter(s, x => !p(x))) == multiset(s)
  {
    if s != [] {
      FilterComplement(s[1..], p);
      assert s == [s[0]] + s[1..];
    }
  }

  /** Filtering twice keeps exactly what both predicates accept. */
  lemma {:induction false} FilterFilter<T>(s: seq<T>, p: T -> bool, q: T -> bool)
    ensures Filter(Filter(s, p), q) == Filter(s, x => p(x) && q(x))
  {
    if s != [] {
      FilterFilter(s[1..], p, q);
    }
  }

  /** Filters whose predicates agree on s give the same result. */
  lemma {:induction false} FilterCongruent<T>(s: seq<T>, p: T -> bool, q: T -> bool)
    requires forall x :: x in s ==> p(x) == q(x)
    ensures Filter(s, p) == Filter(s, q)
  {
    if s != [] {
      FilterCongruent(s[1..], p, q);
    }
  }

  lemma {:induction false} FilterAll<T>(s: seq<T>, p: T -> bool)
    requires forall x :: x in s ==> p(x)
    ensures Filter(s, p) == s
  {
    if s != [] {
      FilterAll(s[1..], p);
    }
  }

  /** idx picks, in increasing positions of b, the elements of a. */
  ghost predicate Embeds<T>(idx: seq<nat>, a: seq<T>, b: seq<T>)
  {
    && |idx| == |a|
    && (forall i :: 0 <= i < |idx| ==> idx[i] < |b| && a[i] == b[idx[i]])
    && (forall i, j :: 0 <= i < j < |idx| ==> idx[i] < idx[j])
  }

  /** a is a subsequence of b: a is b with some elements deleted. */
  ghost predicate IsSubseq<T>(a: seq<T>, b: seq<T>)
  {
    exists idx :: Embeds(idx, a, b)
  }

  function Shift(idx: seq<nat>): (r: seq<nat>)
    ensures |r| == |idx| && forall i :: 0 <= i < |idx| ==> r[i] == idx[i] + 1
  {
    seq(|idx|, i requires 0 <= i < |idx| => idx[i] + 1)
  }

  /** The positions of s that Filter(s, p) keeps. */
  function FilterPositions<T>(s: seq<T>, p: T -> bool): (r: seq<nat>)
    ensures Embeds(r, Filter(s, p), s)
  {
    if s == [] then []
    else
      var rest := FilterPositions(s[1..], p);
      var tail := Filter(s[1..], p);
      assert forall i :: 0 <= i < |rest| ==> Shift(rest)[i] < |s| && tail[i] == s[Shift(rest)[i]];
      if p(s[0]) then
        assert Filter(s, p) == [s[0]] + tail;
        [0] + Shift(rest)
      else
        assert Filter(s, p) == tail;
        Shift(rest)
  }

  lemma FilterIsSubseq<T>(s: seq<T>, p: T -> bool)
    ensures IsSubseq(Filter(s, p), s)
  {
    var idx := FilterPositions(s, p);
  }

  lemma SubseqTransitive<T>(a: seq<T>, b: seq<T>, c: seq<T>)
    requires IsSubseq(a, b) && IsSubseq(b, c)
    ensures IsSubseq(a, c)
  {
    var ab :| Embeds(ab, a, b);
    var bc :| Embeds(bc, b, c);
    var ac := seq(|a|, i requires 0 <= i < |a| => bc[ab[i]]);
    assert Embeds(ac, a, c);
  }

  function Sum(s: seq<int>): int
  {
    if s == [] then 0 else s[0] + Sum(s[1..])
  }

  lemma {:induction false} SumAppend(a: seq<int>, b: seq<int>)
    ensures Sum(a + b) == Sum(a) + Sum(b)
  {
    if a == [] {
      assert a + b == b;
    } else {
      assert (a + b)[1..] == a[1..] + b;
      SumAppend(a[1..], b);
    }
  }

  lemma SumSnoc(s: seq<int>, x: int)
    ensures Sum(s + [x]) == Sum(s) + x
  {
    SumAppend(s, [x]);
  }

  /** Lexicographic order on the (first column, second column) sort key. */
  predicate KeyLe(a: (int, int), b: (int, int))
  {
    a.0 < b.0 || (a.0 == b.0 && a.1 <= b.1)
  }

  ghost predicate SortedBy<T>(s: seq<T>, key: T -> (int, int))
  {
    forall i, j :: 0 <= i < j < |s| ==> KeyLe(key(s[i]), key(s[j]))
  }

  /** Inserts x after every element whose key is not larger than x's. */
  function Insert<T>(x: T, s: seq<T>, key: T -> (int, int)): (r: seq<T>)
    ensures multiset(r) == multiset(s) + multiset{x}
    ensures |r| == |s| + 1
  {
    if s == [] then [x]
    else if !KeyLe(key(s[0]), key(x)) then [x] + s
    else
      assert s == [s[0]] + s[1..];
      [s[0]] + Insert(x, s[1..], key)
  }

  lemma {:induction false} InsertSorted<T>(x: T, s: seq<T>, key: T -> (int, int))
    requires SortedBy(s, key)
    ensures SortedBy(Insert(x, s, key), key)
  {
    if s != [] && KeyLe(key(s[0]), key(x)) {
      InsertSorted(x, s[1..], key);
      var r := Insert(x, s, key);
      var t := Insert(x, s[1..], key);
      assert r == [s[0]] + t;
      forall k | 0 <= k < |t| ensures KeyLe(key(s[0]), key(t[k])) {
        assert t[k] in multiset(t);
        assert t[k] == x || t[k] in multiset(s[1..]);
        if t[k] != x {
          assert t[k] in s[1..];
          var m :| 0 <= m < |s[1..]| && s[1..][m] == t[k];
          assert s[0] == s[0] && s[1..][m] == s[m + 1];
        }
      }
    }
  }

  /** An insertion sort of s by key, as pandas' multi-column sort_values:
      sorted and a permutation; rows with equal keys can come out in a
      different order from pandas'. */
  function SortBy<T>(s: seq<T>, key: T -> (int, int)): (r: seq<T>)
    ensures multiset(r) == multiset(s)
    ensures |r| == |s|
    ensures SortedBy(r, key)
  {
    if s == [] then []
    else
      var init := s[..|s| - 1];
      assert s == init + [s[|s| - 1]];
      var sorted := SortBy(init, key);
      InsertSorted(s[|s| - 1], sorted, key);
      Insert(s[|s| - 1], sorted, key)
  }
}
