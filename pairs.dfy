/** The upper-triangle index pairs (i, j), 0 <= i < j < n, in the order of the
    nested `for i in range(n - 1): for j in range(i + 1, n)` loops and of
    `itertools.combinations(range(n), 2)`. */
module Pairs {
  import opened Py

  /** Row i of the enumeration: (i, i + 1), ..., (i, n - 1). */
  function RowPairs(i: int, n: int): (r: seq<(int, int)>)
    ensures |r| == Max(0, n - i - 1)
    ensures forall k :: 0 <= k < |r| ==> r[k] == (i, i + 1 + k)
  {
    seq(Max(0, n - i - 1), k requires 0 <= k => (i, i + 1 + k))
  }

  /** Rows 0 .. i - 1 of the enumeration. */
  function RowsBelow(i: nat, n: int): seq<(int, int)>
  {
    if i == 0 then [] else RowsBelow(i - 1, n) + RowPairs(i - 1, n)
  }

  /** All the pairs, row by row. */
  function UpperPairs(n: int): seq<(int, int)>
  {
    RowsBelow(Max(0, n - 1), n)
  }

  predicate LexLess(a: (int, int), b: (int, int))
  {
    a.0 < b.0 || (a.0 == b.0 && a.1 < b.1)
  }

  lemma {:induction false} RowsBelowMem(i: nat, n: int, p: (int, int))
    ensures p in RowsBelow(i, n) <==> 0 <= p.0 < i && p.0 < p.1 < n
  {
    if i > 0 {
      RowsBelowMem(i - 1, n, p);
      if p.0 == i - 1 && p.0 < p.1 < n {
        assert p == RowPairs(i - 1, n)[p.1 - i];
      }
    }
  }

  lemma {:induction false} RowsBelowSorted(i: nat, n: int)
    ensures forall a, b :: 0 <= a < b < |RowsBelow(i, n)| ==> LexLess(RowsBelow(i, n)[a], RowsBelow(i, n)[b])
  {
    if i > 0 {
      RowsBelowSorted(i - 1, n);
      var prev := RowsBelow(i - 1, n);
      var row := RowPairs(i - 1, n);
      forall a | 0 <= a < |prev| ensures prev[a].0 < i - 1 {
        RowsBelowMem(i - 1, n, prev[a]);
      }
      assert RowsBelow(i, n) == prev + row;
    }
  }

  lemma {:induction false} RowsBelowCount(i: nat, n: int)
    requires i <= Max(0, n - 1)
    ensures 2 * |RowsBelow(i, n)| == i * (2 * n - i - 1)
  {
    if i > 0 {
      RowsBelowCount(i - 1, n);
    }
  }

  /** The enumeration holds exactly the pairs i < j < n, in strictly
      increasing lexicographic order (so none twice), and there are
      n(n - 1)/2 of them. */
  lemma UpperPairsSpec(n: nat)
    ensures forall p :: p in UpperPairs(n) <==> 0 <= p.0 < p.1 < n
    ensures forall a, b :: 0 <= a < b < |UpperPairs(n)| ==> LexLess(UpperPairs(n)[a], UpperPairs(n)[b])
    ensures forall a, b :: 0 <= a < b < |UpperPairs(n)| ==> UpperPairs(n)[a] != UpperPairs(n)[b]
    ensures |UpperPairs(n)| == n * (n - 1) / 2
  {
    forall p ensures p in UpperPairs(n) <==> 0 <= p.0 < p.1 < n {
      RowsBelowMem(Max(0, n - 1), n, p);
    }
    RowsBelowSorted(Max(0, n - 1), n);
    RowsBelowCount(Max(0, n - 1), n);
    if n > 0 {
      assert 2 * |UpperPairs(n)| == n * (n - 1);
    }
  }

  /** The nested loops appending to `row` and `col`. */
  method RowCol(n: int) returns (row: seq<int>, col: seq<int>)
    ensures |row| == |col| == |UpperPairs(n)|
    ensures forall k :: 0 <= k < |row| ==> (row[k], col[k]) == UpperPairs(n)[k]
  {
    row, col := [], [];
    var i := 0;
    while i < n - 1
      invariant 0 <= i <= Max(0, n - 1)
      invariant |row| == |col| == |RowsBelow(i, n)|
      invariant forall k :: 0 <= k < |row| ==> (row[k], col[k]) == RowsBelow(i, n)[k]
    {
      var j := i + 1;
      while j < n
        invariant i + 1 <= j <= n
        invariant |row| == |col| == |RowsBelow(i, n)| + (j - i - 1)
        invariant forall k :: 0 <= k < |row| ==> (row[k], col[k]) == (RowsBelow(i, n) + RowPairs(i, n))[k]
      {
        row, col := row + [i], col + [j];
        j := j + 1;
      }
      i := i + 1;
    }
  }
}
