/** The mask, budget and sampling helpers of the Beibei dataset's subgraph
    sampler, over a dense adjacency matrix with integer weights. */
module Beibei {
  import opened Py
  import opened Seqs

  /** Rows `update_bdgt` hands to one `np.sum`. */
  const BatchSize: nat := 1000

  predicate Rect(m: seq<seq<int>>, width: nat)
  {
    forall r :: 0 <= r < |m| ==> |m[r]| == width
  }

  /** Every node is an index numpy accepts for an axis of length size:
      a negative one counts from the end. */
  predicate AllIn(nodes: seq<int>, size: nat)
  {
    forall j :: 0 <= j < |nodes| ==> 0 <= nodes[j] + size && nodes[j] < size
  }

  function Wrap(n: int, size: nat): (r: nat)
    requires 0 <= n + size && n < size
    ensures r < size && (r == n || r == n + size)
  {
    if n < 0 then n + size else n
  }

  /** The positions the nodes address. */
  function Targets(nodes: seq<int>, size: nat): (r: seq<nat>)
    requires AllIn(nodes, size)
    ensures |r| == |nodes|
    ensures forall j :: 0 <= j < |nodes| ==> r[j] == Wrap(nodes[j], size)
  {
    seq(|nodes|, j requires 0 <= j < |nodes| => Wrap(nodes[j], size))
  }

  // ---------------------------------------------------------------------
  // Masks

  predicate IsMask(m: seq<int>)
  {
    forall k :: 0 <= k < |m| ==> m[k] == 0 || m[k] == 1
  }

  /** The mask `make_mask` builds: ones, with a zero at every addressed
      position; no nodes at all leaves all ones. */
  function MaskOf(nodes: Option<seq<int>>, size: nat): (r: seq<int>)
    requires nodes.Some? ==> AllIn(nodes.value, size)
  {
    seq(size, k => if nodes.Some? && k in Targets(nodes.value, size) then 0 else 1)
  }

  /** `np.argwhere(s == 0)` (zero) or `np.argwhere(s != 0)` (not zero),
      flattened: the positions where s is (or is not) 0, in increasing
      order. */
  function Where(s: seq<int>, zero: bool): (r: seq<nat>)
    ensures forall j :: 0 <= j < |r| ==> r[j] < |s| && (s[r[j]] == 0 <==> zero)
    ensures forall j, l :: 0 <= j < l < |r| ==> r[j] < r[l]
    ensures forall k :: 0 <= k < |s| && (s[k] == 0 <==> zero) ==> k in r
  {
    if s == [] then []
    else
      var init := Where(s[..|s| - 1], zero);
      if s[|s| - 1] == 0 <==> zero then init + [|s| - 1] else init
  }

  /** `make_mask`: `np.ones(size)` with `mask[nodes] = 0.0`. A negative size
      is a ValueError and a node outside [-size, size) an IndexError. */
  method MakeMask(nodes: Option<seq<int>>, size: int) returns (r: Result<seq<int>>)
    ensures size < 0 ==> r == Err(ValueError)
    ensures size >= 0 ==> (r.Err? <==> nodes.Some? && !AllIn(nodes.value, size))
    ensures size >= 0 && r.Err? ==> r.error == IndexError
    ensures r.Ok? ==> size >= 0 && r.value == MaskOf(nodes, size)
  {
    if size < 0 {
      return Err(ValueError);
    }
    var mask := new int[size](_ => 1);
    if nodes.None? {
      return Ok(mask[..]);
    }
    var ns := nodes.value;
    if !AllIn(ns, size) {
      return Err(IndexError);
    }
    for j := 0 to |ns|
      invariant forall k :: 0 <= k < size ==>
        mask[k] == if k in Targets(ns[..j], size) then 0 else 1
    {
      assert Targets(ns[..j + 1], size) == Targets(ns[..j], size) + [Wrap(ns[j], size)];
      mask[Wrap(ns[j], size)] := 0;
    }
    assert ns[..|ns|] == ns;
    return Ok(mask[..]);
  }

  /** The positions left at zero by `make_mask` are exactly the addressed
      ones, listed once each in increasing order. */
  lemma MaskZeros(nodes: Option<seq<int>>, size: nat, k: int)
    requires nodes.Some? ==> AllIn(nodes.value, size)
    ensures IsMask(MaskOf(nodes, size))
    ensures k in Where(MaskOf(nodes, size), true) <==>
      nodes.Some? && k in Targets(nodes.value, size)
  {
  }

  /** `a * b` on two masks of one length. */
  function Mul(a: seq<int>, b: seq<int>): (r: seq<int>)
    requires |a| == |b|
    ensures |r| == |a|
    ensures IsMask(a) && IsMask(b) ==>
      IsMask(r) && forall k :: 0 <= k < |a| ==> (r[k] == 0 <==> a[k] == 0 || b[k] == 0)
  {
    seq(|a|, k requires 0 <= k < |a| => a[k] * b[k])
  }

  // ---------------------------------------------------------------------
  // Budgets

  /** A budget is the scalar 0 `update_bdgt` starts from, or one weight per
      column. */
  datatype Budget = Zero | Vec(v: seq<int>)

  predicate Fits(b: Budget, width: nat)
  {
    b.Vec? ==> |b.v| == width
  }

  /** `a + b` on budgets of one width, 0 being the identity. */
  function AddBudget(a: Budget, b: Budget): (r: Budget)
    requires a.Vec? && b.Vec? ==> |a.v| == |b.v|
    ensures r.Zero? <==> a.Zero? && b.Zero?
    ensures a.Zero? ==> r == b
    ensures b.Zero? ==> r == a
    ensures r.Vec? && a.Vec? && b.Vec? ==>
      |r.v| == |a.v| && forall c :: 0 <= c < |a.v| ==> r.v[c] == a.v[c] + b.v[c]
  {
    if a.Zero? then b
    else if b.Zero? then a
    else Vec(seq(|a.v|, c requires 0 <= c < |a.v| => a.v[c] + b.v[c]))
  }

  /** Column c of `np.sum(adj[rows], axis=0)`. */
  function ColSum(adj: seq<seq<int>>, width: nat, rows: seq<int>, c: nat): int
    requires Rect(adj, width) && AllIn(rows, |adj|) && c < width
  {
    if rows == [] then 0
    else ColSum(adj, width, rows[..|rows| - 1], c) + adj[Wrap(rows[|rows| - 1], |adj|)][c]
  }

  function RowsSum(adj: seq<seq<int>>, width: nat, rows: seq<int>): (r: seq<int>)
    requires Rect(adj, width) && AllIn(rows, |adj|)
    ensures |r| == width
  {
    seq(width, c requires 0 <= c < width => ColSum(adj, width, rows, c))
  }

  /** Summing two groups of rows separately and adding the results is
      summing them together. */
  lemma {:induction false} ColSumAppend(adj: seq<seq<int>>, width: nat, a: seq<int>, b: seq<int>, c: nat)
    requires Rect(adj, width) && AllIn(a, |adj|) && AllIn(b, |adj|) && c < width
    ensures AllIn(a + b, |adj|)
    ensures ColSum(adj, width, a + b, c) == ColSum(adj, width, a, c) + ColSum(adj, width, b, c)
    decreases |b|
  {
    assert forall j :: 0 <= j < |a + b| ==> (a + b)[j] == if j < |a| then a[j] else b[j - |a|];
    if b == [] {
      assert a + b == a;
    } else {
      var b' := b[..|b| - 1];
      assert (a + b)[..|a + b| - 1] == a + b';
      assert (a + b)[|a + b| - 1] == b[|b| - 1];
      ColSumAppend(adj, width, a, b', c);
    }
  }

  lemma AllInConcat(a: seq<int>, b: seq<int>, size: nat)
    requires AllIn(a, size) && AllIn(b, size)
    ensures AllIn(a + b, size)
  {
    assert forall j :: 0 <= j < |a + b| ==> (a + b)[j] == if j < |a| then a[j] else b[j - |a|];
  }

  /** The row sum of a + b is the row sum of a plus the row sum of b. */
  lemma RowsSumConcat(adj: seq<seq<int>>, width: nat, a: seq<int>, b: seq<int>)
    requires Rect(adj, width) && AllIn(a, |adj|) && AllIn(b, |adj|)
    ensures AllIn(a + b, |adj|)
    ensures AddBudget(Vec(RowsSum(adj, width, a)), Vec(RowsSum(adj, width, b))) ==
      Vec(RowsSum(adj, width, a + b))
  {
    AllInConcat(a, b, |adj|);
    forall c | 0 <= c < width
      ensures ColSum(adj, width, a + b, c) == ColSum(adj, width, a, c) + ColSum(adj, width, b, c)
    {
      ColSumAppend(adj, width, a, b, c);
    }
  }

  /** How many batches `update_bdgt` runs: ceil(n / 1000). */
  function BatchCount(n: nat): (r: nat)
    ensures BatchSize * r >= n
    ensures r > 0 ==> BatchSize * (r - 1) < n
  {
    (n + BatchSize - 1) / BatchSize
  }

  /** Batch i: nodes[1000 i : min(1000 (i + 1), n)]. */
  function Batch(nodes: seq<int>, i: nat): (r: seq<int>)
    requires i < BatchCount(|nodes|)
  {
    nodes[BatchSize * i..Min((i + 1) * BatchSize, |nodes|)]
  }

  /** The first m batches one after the other. */
  function Batches(nodes: seq<int>, m: nat): seq<int>
    requires m <= BatchCount(|nodes|)
  {
    if m == 0 then [] else Batches(nodes, m - 1) + Batch(nodes, m - 1)
  }

  /** The batches are non-empty, hold at most 1000 nodes each, and together
      are the nodes in their order. */
  lemma {:induction false} BatchesPartition(nodes: seq<int>, m: nat)
    requires m <= BatchCount(|nodes|)
    ensures forall i :: 0 <= i < m ==> 0 < |Batch(nodes, i)| <= BatchSize
    ensures Batches(nodes, m) == nodes[..Min(BatchSize * m, |nodes|)]
  {
    if m > 0 {
      BatchesPartition(nodes, m - 1);
      assert nodes[..Min(BatchSize * m, |nodes|)] ==
        nodes[..BatchSize * (m - 1)] + Batch(nodes, m - 1);
    }
  }

  lemma BatchesAll(nodes: seq<int>)
    ensures Batches(nodes, BatchCount(|nodes|)) == nodes
  {
    BatchesPartition(nodes, BatchCount(|nodes|));
    assert nodes[..|nodes|] == nodes;
  }

  /** A bad node in one batch of `update_bdgt` is a bad node of the list. */
  lemma BatchBad(ns: seq<int>, st: nat, ed: nat, size: nat)
    requires st <= ed <= |ns| && !AllIn(ns[st..ed], size)
    ensures !AllIn(ns, size)
  {
    var temNodes := ns[st..ed];
    var j :| 0 <= j < |temNodes| && !(0 <= temNodes[j] + size && temNodes[j] < size);
    assert temNodes[j] == ns[st + j];
  }

  /** A good batch of `update_bdgt`: adding its row sums to the running sum
      of the batches before it gives the running sum up to its end. */
  lemma BatchGood(adj: seq<seq<int>>, width: nat, ns: seq<int>, st: nat, ed: nat, ret: Budget)
    requires Rect(adj, width) && st <= ed <= |ns|
    requires AllIn(ns[..st], |adj|) && AllIn(ns[st..ed], |adj|)
    requires ret == if st == 0 then Zero else Vec(RowsSum(adj, width, ns[..st]))
    ensures AllIn(ns[..ed], |adj|)
    ensures AddBudget(ret, Vec(RowsSum(adj, width, ns[st..ed]))) == Vec(RowsSum(adj, width, ns[..ed]))
  {
    assert ns[..ed] == ns[..st] + ns[st..ed];
    RowsSumConcat(adj, width, ns[..st], ns[st..ed]);
    if st == 0 {
      assert ns[st..ed] == ns[..ed];
    }
  }

  /** `update_bdgt`: no nodes give the scalar 0, and so do no nodes at all
      (the loop never runs); otherwise the batched sums add up to the sum of
      the adjacency rows of all the nodes. A node outside the rows is an
      IndexError. */
  method UpdateBdgt(adj: seq<seq<int>>, width: nat, nodes: Option<seq<int>>)
    returns (r: Result<Budget>)
    requires Rect(adj, width)
    ensures r.Err? <==> nodes.Some? && !AllIn(nodes.value, |adj|)
    ensures r.Err? ==> r.error == IndexError
    ensures r.Ok? && (nodes.None? || nodes.value == []) ==> r.value == Zero
    ensures r.Ok? && nodes.Some? && nodes.value != [] ==>
      r.value == Vec(RowsSum(adj, width, nodes.value))
  {
    if nodes.None? {
      return Ok(Zero);
    }
    var ns := nodes.value;
    var ret := Zero;
    var count := BatchCount(|ns|);
    for i := 0 to count
      invariant AllIn(ns[..Min(BatchSize * i, |ns|)], |adj|)
      invariant ret == if i == 0 then Zero else Vec(RowsSum(adj, width, ns[..Min(BatchSize * i, |ns|)]))
    {
      var st := BatchSize * i;
      var ed := Min((i + 1) * BatchSize, |ns|);
      assert st < |ns| && Min(BatchSize * i, |ns|) == st;
      var temNodes := ns[st..ed];
      if !AllIn(temNodes, |adj|) {
        BatchBad(ns, st, ed, |adj|);
        return Err(IndexError);
      }
      BatchGood(adj, width, ns, st, ed, ret);
      ret := AddBudget(ret, Vec(RowsSum(adj, width, temNodes)));
    }
    assert ns[..Min(BatchSize * count, |ns|)] == ns;
    return Ok(ret);
  }

  // ---------------------------------------------------------------------
  // sample

  function Sq(x: int): nat { if x < 0 then -x * -x else x * x }

  /** `np.reshape(np.array(budget), [-1])`: the scalar 0 becomes [0]. */
  function Flat(b: Budget): seq<int>
  {
    if b.Zero? then [0] else b.v
  }

  /** `(mask * budget) ** 2` with numpy broadcasting: equal lengths multiply
      pointwise, a length-1 side is repeated, anything else is a ValueError. */
  function Scores(budget: Budget, mask: seq<int>): (r: Result<seq<int>>)
    ensures r.Ok? ==> forall k :: 0 <= k < |r.value| ==> r.value[k] >= 0
    ensures Fits(budget, |mask|) ==> r.Ok? && |r.value| == |mask|
  {
    var v := Flat(budget);
    if |v| == |mask| then Ok(seq(|mask|, k requires 0 <= k < |mask| => Sq(mask[k] * v[k])))
    else if |v| == 1 then Ok(seq(|mask|, k requires 0 <= k < |mask| => Sq(mask[k] * v[0])))
    else if |mask| == 1 then Ok(seq(|v|, k requires 0 <= k < |v| => Sq(mask[0] * v[k])))
    else Err(ValueError)
  }

  predicate AllZero(s: seq<int>)
  {
    forall k :: 0 <= k < |s| ==> s[k] == 0
  }

  /** A sum of non-negative scores is 0 exactly when every score is. */
  lemma {:induction false} NormZero(s: seq<int>)
    requires forall k :: 0 <= k < |s| ==> s[k] >= 0
    ensures Sum(s) >= 0
    ensures Sum(s) == 0 <==> AllZero(s)
  {
    if s != [] {
      NormZero(s[1..]);
      assert forall k :: 1 <= k < |s| ==> s[k] == s[1..][k - 1];
    }
  }

  predicate Distinct(s: seq<nat>)
  {
    forall j, l :: 0 <= j < l < |s| ==> s[j] != s[l]
  }

  /** What `np.random.choice(len(score), sampNum, p=score, replace=False)`
      may return: sampNum distinct positions of non-zero probability. */
  predicate ValidPick(nodes: seq<nat>, score: seq<int>, sampNum: int)
  {
    && |nodes| == sampNum
    && Distinct(nodes)
    && forall j :: 0 <= j < |nodes| ==> nodes[j] < |score| && score[nodes[j]] != 0
  }

  /** The first n positive positions are a valid draw of n. */
  lemma PositivePrefix(score: seq<int>, n: nat)
    requires n <= |Where(score, false)|
    ensures ValidPick(Where(score, false)[..n], score, n)
  {
    var pos := Where(score, false);
    assert forall j :: 0 <= j < n ==> pos[..n][j] == pos[j];
  }

  /** What `sample` returns for the given scores: with no weight under the
      mask one random position, and sampNum - 1 owed; with fewer positive
      positions than asked for, all of them, and the shortfall owed;
      otherwise sampNum distinct positive positions, and nothing owed.
      Either way the nodes taken and the residual add up to sampNum. */
  predicate SampleOutcome(score: seq<int>, sampNum: int, nodes: seq<nat>, residual: int)
  {
    && |nodes| + residual == sampNum
    && (forall j :: 0 <= j < |nodes| ==> nodes[j] < |score|)
    && (AllZero(score) ==> |nodes| == 1 && residual == sampNum - 1)
    && (!AllZero(score) ==>
      && residual == Max(sampNum - |Where(score, false)|, 0)
      && ValidPick(nodes, score, |nodes|)
      && (|Where(score, false)| < sampNum ==> nodes == Where(score, false)))
  }

  /** The outcome with no weight: one position, sampNum - 1 owed. */
  lemma NoWeightOutcome(score: seq<int>, sampNum: int, k: nat)
    requires AllZero(score) && k < |score|
    ensures SampleOutcome(score, sampNum, [k], sampNum - 1)
  {
  }

  /** The outcome with too few positive positions: all of them, the
      shortfall owed. */
  lemma ShortOutcome(score: seq<int>, sampNum: int)
    requires !AllZero(score) && |Where(score, false)| < sampNum
    ensures var pos := Where(score, false);
      SampleOutcome(score, sampNum, pos, sampNum - |pos|)
  {
    var pos := Where(score, false);
    PositivePrefix(score, |pos|);
    assert pos[..|pos|] == pos;
  }

  /** The outcome of a full draw: nothing owed. */
  lemma FullOutcome(score: seq<int>, sampNum: int, nodes: seq<nat>)
    requires !AllZero(score) && 0 <= sampNum <= |Where(score, false)|
    requires ValidPick(nodes, score, sampNum)
    ensures SampleOutcome(score, sampNum, nodes, 0)
  {
  }

  /** A short draw of exactly one positive position: `np.squeeze` of the
      one-row `np.argwhere` result is a 0-d array, which has no `len`. */
  predicate Squeezed(score: seq<int>, sampNum: int)
  {
    !AllZero(score) && |Where(score, false)| == 1 < sampNum
  }

  /** The draw `sample` makes from its scores, nondeterministically, and
      whether it comes back as a 0-d array. An
      empty score vector with no weight fails in `np.random.choice(0, 1)`
      and a negative sample count in `np.random.choice`, both with
      ValueError. */
  method Choose(score: seq<int>, sampNum: int) returns (r: Result<(seq<nat>, int, bool)>)
    requires forall k :: 0 <= k < |score| ==> score[k] >= 0
    ensures r.Err? <==> (AllZero(score) && score == []) || (!AllZero(score) && sampNum < 0)
    ensures r.Err? ==> r.error == ValueError
    ensures r.Ok? ==> SampleOutcome(score, sampNum, r.value.0, r.value.1)
    ensures r.Ok? ==> (r.value.2 <==> Squeezed(score, sampNum))
  {
    var norm := Sum(score);
    NormZero(score);
    if norm == 0 {
      if score == [] {
        return Err(ValueError);
      }
      var k: nat :| k < |score|;
      NoWeightOutcome(score, sampNum, k);
      return Ok(([k], sampNum - 1, false));
    }
    var pos := Where(score, false);
    var posNum := |pos|;
    if posNum < sampNum {
      ShortOutcome(score, sampNum);
      return Ok((pos, sampNum - posNum, posNum == 1));
    }
    if sampNum < 0 {
      return Err(ValueError);
    }
    PositivePrefix(score, sampNum);
    var pckNodes: seq<nat> :|
      && |pckNodes| == sampNum
      && Distinct(pckNodes)
      && forall j :: 0 <= j < |pckNodes| ==> pckNodes[j] < |score| && score[pckNodes[j]] != 0;
    FullOutcome(score, sampNum, pckNodes);
    return Ok((pckNodes, 0, false));
  }

  /** `sample`: the scores of the budget under the mask, then the draw. */
  method Sample(budget: Budget, mask: seq<int>, sampNum: int)
    returns (r: Result<(seq<nat>, int, bool)>)
    ensures Scores(budget, mask).Err? ==> r == Err(ValueError)
    ensures Scores(budget, mask).Ok? ==>
      var score := Scores(budget, mask).value;
      && (r.Err? <==> (AllZero(score) && score == []) || (!AllZero(score) && sampNum < 0))
      && (r.Err? ==> r.error == ValueError)
      && (r.Ok? ==> SampleOutcome(score, sampNum, r.value.0, r.value.1))
      && (r.Ok? ==> (r.value.2 <==> Squeezed(score, sampNum)))
  {
    var score :- Scores(budget, mask);
    r := Choose(score, sampNum);
  }

  // ---------------------------------------------------------------------
  // transToLsts

  /** The non-zero entries of row r, left to right, as ((r, c), value). */
  function RowEntries(row: seq<real>, r: nat): (e: seq<((int, int), real)>)
    ensures forall j :: 0 <= j < |e| ==>
      e[j].0.0 == r && 0 <= e[j].0.1 < |row| && e[j].1 == row[e[j].0.1] && e[j].1 != 0.0
    ensures forall j, l :: 0 <= j < l < |e| ==> e[j].0.1 < e[l].0.1
  {
    if row == [] then []
    else
      var init := RowEntries(row[..|row| - 1], r);
      assert forall j :: 0 <= j < |init| ==> row[..|row| - 1][init[j].0.1] == row[init[j].0.1];
      if row[|row| - 1] != 0.0 then init + [((r, |row| - 1), row[|row| - 1])] else init
  }

  /** Every non-zero entry of the row is listed. */
  lemma {:induction false} RowEntriesComplete(row: seq<real>, r: nat, c: nat)
    requires c < |row| && row[c] != 0.0
    ensures ((r, c), row[c]) in RowEntries(row, r)
  {
    if c < |row| - 1 {
      RowEntriesComplete(row[..|row| - 1], r, c);
    }
  }

  /** The non-zero entries of the matrix in row-major order, as
      `sp.coo_matrix` lists them. */
  function Entries(mat: seq<seq<real>>): (e: seq<((int, int), real)>)
    ensures forall j :: 0 <= j < |e| ==>
      0 <= e[j].0.0 < |mat| && 0 <= e[j].0.1 < |mat[e[j].0.0]|
      && e[j].1 == mat[e[j].0.0][e[j].0.1] && e[j].1 != 0.0
    ensures forall j :: 0 <= j < |e| ==> |mat| > 0 && e[j].0.0 <= |mat| - 1
  {
    if mat == [] then []
    else
      var init := Entries(mat[..|mat| - 1]);
      init + RowEntries(mat[|mat| - 1], |mat| - 1)
  }

  /** The entries are in strictly increasing row-major order. */
  lemma {:induction false} EntriesSorted(mat: seq<seq<real>>)
    ensures forall j, l :: 0 <= j < l < |Entries(mat)| ==>
      var a, b := Entries(mat)[j].0, Entries(mat)[l].0;
      a.0 < b.0 || (a.0 == b.0 && a.1 < b.1)
  {
    if mat != [] {
      EntriesSorted(mat[..|mat| - 1]);
    }
  }

  /** Every non-zero entry is listed. */
  lemma {:induction false} EntriesComplete(mat: seq<seq<real>>, i: nat, c: nat)
    requires i < |mat| && c < |mat[i]| && mat[i][c] != 0.0
    ensures ((i, c), mat[i][c]) in Entries(mat)
  {
    if i < |mat| - 1 {
      EntriesComplete(mat[..|mat| - 1], i, c);
    } else {
      RowEntriesComplete(mat[i], i, c);
    }
  }

  /** `transToLsts` without the degree normalisation: the coordinates and
      values of the non-zero entries, each value zeroed when its coin is
      false under `mask`, and the single placeholder ((0, 0), 0.0) for a
      matrix with no non-zero entry. */
  function TransToLsts(mat: seq<seq<real>>, cols: nat, mask: bool, coin: nat -> bool)
    : (r: (seq<(int, int)>, seq<real>, (nat, nat)))
    ensures r.2 == (|mat|, cols)
    ensures |r.0| == |r.1| > 0
    ensures Entries(mat) == [] ==> r.0 == [(0, 0)] && r.1 == [0.0]
    ensures Entries(mat) != [] ==>
      && |r.0| == |Entries(mat)|
      && (forall j :: 0 <= j < |r.0| ==> r.0[j] == Entries(mat)[j].0)
      && (forall j :: 0 <= j < |r.0| ==>
            r.1[j] == if mask && !coin(j) then 0.0 else Entries(mat)[j].1)
  {
    var e := Entries(mat);
    if e == [] then ([(0, 0)], [0.0], (|mat|, cols))
    else
      (seq(|e|, j requires 0 <= j < |e| => e[j].0),
       seq(|e|, j requires 0 <= j < |e| => if mask && !coin(j) then 0.0 else e[j].1),
       (|mat|, cols))
  }

  /** A coordinate is listed exactly when the matrix is non-zero there
      (unless the matrix has no non-zero entry at all). */
  lemma TransToLstsIndices(mat: seq<seq<real>>, cols: nat, mask: bool, coin: nat -> bool, i: nat, c: nat)
    requires Entries(mat) != []
    requires i < |mat| && c < |mat[i]|
    ensures (i, c) in TransToLsts(mat, cols, mask, coin).0 <==> mat[i][c] != 0.0
  {
    var r := TransToLsts(mat, cols, mask, coin);
    var e := Entries(mat);
    if mat[i][c] != 0.0 {
      EntriesComplete(mat, i, c);
      var j :| 0 <= j < |e| && e[j] == ((i, c), mat[i][c]);
      assert r.0[j] == (i, c);
    }
  }

  // ---------------------------------------------------------------------
  // sample_large_graph

  /** One `sample` followed by `mask = mask * make_mask(nodes, size)`: the
      mask stays a 0/1 mask of the same length, and no entry goes from 0
      back to 1. The last component says whether the pick is a 0-d array. */
  method SampleAndMask(budget: Budget, mask: seq<int>, sampNum: int)
    returns (r: Result<(seq<int>, seq<nat>, int, bool)>)
    requires IsMask(mask) && Fits(budget, |mask|)
    ensures var score := Scores(budget, mask).value;
      r.Err? <==> (AllZero(score) && score == []) || (!AllZero(score) && sampNum < 0)
    ensures r.Ok? ==>
      && |r.value.0| == |mask| && IsMask(r.value.0)
      && (forall k :: 0 <= k < |mask| && mask[k] == 0 ==> r.value.0[k] == 0)
      && (forall j :: 0 <= j < |r.value.1| ==> r.value.1[j] < |mask|)
      && SampleOutcome(Scores(budget, mask).value, sampNum, r.value.1, r.value.2)
      && (r.value.3 <==> Squeezed(Scores(budget, mask).value, sampNum))
  {
    var s :- Sample(budget, mask, sampNum);
    var mr := MakeMask(Some(s.0), |mask|);
    var m := mr.value;
    MaskZeros(Some(s.0), |mask|, 0);
    return Ok((Mul(mask, m), s.0, s.1, s.2));
  }

  /** `bdgt += update_bdgt(adj, nodes)` for nodes read from a mask of width
      |adj|: the budget keeps its width. Nodes that are a 0-d array
      (scalar) fail at `len(nodes)` with TypeError. */
  method GrowBudget(bdgt: Budget, adj: seq<seq<int>>, width: nat, nodes: seq<nat>, scalar: bool)
    returns (r: Result<Budget>)
    requires Rect(adj, width) && Fits(bdgt, width)
    ensures scalar ==> r == Err(TypeError)
    ensures r.Ok? ==> Fits(r.value, width)
    ensures r.Ok? && nodes == [] ==> r.value == bdgt
    ensures r.Ok? && nodes != [] ==>
      AllIn(nodes, |adj|) && (bdgt.Zero? ==> r.value == Vec(RowsSum(adj, width, nodes)))
  {
    if scalar {
      return Err(TypeError);
    }
    var b :- UpdateBdgt(adj, width, Some(nodes));
    return Ok(AddBudget(bdgt, b));
  }

  /** A mask that is zero wherever `make_mask(nodes, size)` is lists every
      addressed position among its zeros. */
  lemma StillMasked(nodes: seq<int>, size: nat, mask: seq<int>)
    requires AllIn(nodes, size) && |mask| == size
    requires forall k :: 0 <= k < size && MaskOf(Some(nodes), size)[k] == 0 ==> mask[k] == 0
    ensures forall j :: 0 <= j < |nodes| ==> Wrap(nodes[j], size) in Where(mask, true)
  {
    forall j | 0 <= j < |nodes|
      ensures Wrap(nodes[j], size) in Where(mask, true)
    {
      assert Targets(nodes, size)[j] == Wrap(nodes[j], size);
      assert MaskOf(Some(nodes), size)[Wrap(nodes[j], size)] == 0;
    }
  }

  /** The rounds of `sample_large_graph`: sampDepth + 1 of them (none for a
      negative depth), each sampling users and items by budget, masking
      them, and, except in the last round, growing each budget from the
      other side's new picks. The break condition holds only in the last
      round, whatever the residuals. The masks stay 0/1 masks of their
      lengths, and no entry goes from 0 back to 1. */
  method Rounds(adj: seq<seq<int>>, tpadj: seq<seq<int>>, users: nat, items: nat,
                usrMask0: seq<int>, itmMask0: seq<int>, usrBdgt0: Budget, itmBdgt0: Budget,
                sampDepth: int, sampNum: int)
    returns (r: Result<(seq<int>, seq<int>)>)
    requires |adj| == users && Rect(adj, items)
    requires |tpadj| == items && Rect(tpadj, users)
    requires |usrMask0| == users && IsMask(usrMask0) && Fits(usrBdgt0, users)
    requires |itmMask0| == items && IsMask(itmMask0) && Fits(itmBdgt0, items)
    ensures r.Ok? ==>
      && |r.value.0| == users && IsMask(r.value.0)
      && |r.value.1| == items && IsMask(r.value.1)
      && (forall k :: 0 <= k < users && usrMask0[k] == 0 ==> r.value.0[k] == 0)
      && (forall k :: 0 <= k < items && itmMask0[k] == 0 ==> r.value.1[k] == 0)
  {
    var usrMask, itmMask, usrBdgt, itmBdgt := usrMask0, itmMask0, usrBdgt0, itmBdgt0;
    var uSampRes, iSampRes := 0, 0;
    var i := 0;
    while i < sampDepth + 1
      invariant |usrMask| == users && IsMask(usrMask)
      invariant |itmMask| == items && IsMask(itmMask)
      invariant forall k :: 0 <= k < users && usrMask0[k] == 0 ==> usrMask[k] == 0
      invariant forall k :: 0 <= k < items && itmMask0[k] == 0 ==> itmMask[k] == 0
      invariant Fits(usrBdgt, users) && Fits(itmBdgt, items)
      decreases sampDepth + 1 - i
    {
      var uSamp := uSampRes + (if i < sampDepth then sampNum else 0);
      var iSamp := iSampRes + (if i < sampDepth then sampNum else 0);
      var su :- SampleAndMask(usrBdgt, usrMask, uSamp);
      var newUsrs, usrScalar;
      usrMask, newUsrs, uSampRes, usrScalar := su.0, su.1, su.2, su.3;
      var si :- SampleAndMask(itmBdgt, itmMask, iSamp);
      var newItms, itmScalar;
      itmMask, newItms, iSampRes, itmScalar := si.0, si.1, si.2, si.3;
      if i == sampDepth || (i == sampDepth && uSampRes == 0 && iSampRes == 0) {
        break;
      }
      usrBdgt :- GrowBudget(usrBdgt, tpadj, users, newItms, itmScalar);
      itmBdgt :- GrowBudget(itmBdgt, adj, items, newUsrs, usrScalar);
      i := i + 1;
    }
    return Ok((usrMask, itmMask));
  }

  /** `sample_large_graph` up to its final call: marks the picked users and
      items (when no items are given, a sample of the items the users'
      budget reaches), derives both budgets, runs the rounds, and returns
      the users and items left at zero in the masks. */
  method SampleLargeGraph(adj: seq<seq<int>>, tpadj: seq<seq<int>>, users: nat, items: nat,
                          pckUsrs: seq<int>, pckItms: Option<seq<int>>, sampDepth: int, sampNum: int)
    returns (r: Result<(seq<nat>, seq<nat>)>)
    requires |adj| == users && Rect(adj, items)
    requires |tpadj| == items && Rect(tpadj, users)
    ensures !AllIn(pckUsrs, users) ==> r.Err?
    ensures r.Ok? ==>
      && (forall j, l :: 0 <= j < l < |r.value.0| ==> r.value.0[j] < r.value.0[l])
      && (forall j, l :: 0 <= j < l < |r.value.1| ==> r.value.1[j] < r.value.1[l])
      && (forall j :: 0 <= j < |r.value.0| ==> r.value.0[j] < users)
      && (forall j :: 0 <= j < |r.value.1| ==> r.value.1[j] < items)
      && AllIn(pckUsrs, users)
      && (forall j :: 0 <= j < |pckUsrs| ==> Wrap(pckUsrs[j], users) in r.value.0)
    ensures pckItms.None? && AllIn(pckUsrs, users) && pckUsrs != [] ==>
      var score := Scores(Vec(RowsSum(adj, items, pckUsrs)), MaskOf(None, items));
      score.Ok? && Squeezed(score.value, |pckUsrs|) ==> r == Err(TypeError)
    ensures r.Ok? && pckItms.Some? ==>
      && AllIn(pckItms.value, items)
      && (forall j :: 0 <= j < |pckItms.value| ==> Wrap(pckItms.value[j], items) in r.value.1)
  {
    var usrMask :- MakeMask(Some(pckUsrs), users);
    var itmMask :- MakeMask(pckItms, items);
    var ib := UpdateBdgt(adj, items, Some(pckUsrs));
    var itmBdgt := ib.value;
    var picked := pckItms;
    var itmMask1 := itmMask;
    if pckItms.None? {
      var s :- SampleAndMask(itmBdgt, itmMask, |pckUsrs|);
      if s.3 {
        return Err(TypeError);
      }
      itmMask1 := s.0;
      picked := Some(s.1);
    }
    var usrBdgt :- UpdateBdgt(tpadj, users, picked);
    var masks :- Rounds(adj, tpadj, users, items, usrMask, itmMask1, usrBdgt, itmBdgt, sampDepth, sampNum);
    StillMasked(pckUsrs, users, masks.0);
    if pckItms.Some? {
      StillMasked(pckItms.value, items, masks.1);
    }
    return Ok((Where(masks.0, true), Where(masks.1, true)));
  }
}
