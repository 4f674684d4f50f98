/** The integer bookkeeping of the factorization-machine layers: the
    per-field index offsets of FM and FFM, index offsetting of the inputs,
    the FFM field-pair loop, the AFM pair lists and the CIN weight shapes. */
module Fm {
  import opened Py
  import opened Seqs
  import opened Pairs

  /** The loop of `FM_Layer.__init__` and `FFM_Layer.__init__`: each field's
      first index is the running total of the `feat_num`s before it. */
  method IndexMapping(featNums: seq<nat>) returns (indexMapping: seq<int>, featureLength: int)
    ensures |indexMapping| == |featNums|
    ensures forall k :: 0 <= k < |featNums| ==> indexMapping[k] == Sum(featNums[..k])
    ensures featureLength == Sum(featNums)
  {
    indexMapping, featureLength := [], 0;
    for k := 0 to |featNums|
      invariant |indexMapping| == k
      invariant forall m :: 0 <= m < k ==> indexMapping[m] == Sum(featNums[..m])
      invariant featureLength == Sum(featNums[..k])
    {
      indexMapping := indexMapping + [featureLength];
      assert featNums[..k + 1] == featNums[..k] + [featNums[k]];
      SumSnoc(featNums[..k], featNums[k]);
      featureLength := featureLength + featNums[k];
    }
    assert featNums[..|featNums|] == featNums;
  }

  lemma {:induction false} SumNat(s: seq<nat>)
    ensures Sum(s) >= 0
  {
    if s != [] {
      SumNat(s[1..]);
    }
  }

  /** Offsets grow with the field: each field's range ends where the next
      field's may begin, and every range ends within featureLength. */
  lemma {:induction false} PrefixSumsGrow(featNums: seq<nat>, k: nat, l: nat)
    requires k < l <= |featNums|
    ensures Sum(featNums[..k]) + featNums[k] <= Sum(featNums[..l])
    decreases l - k
  {
    assert featNums[..k + 1] == featNums[..k] + [featNums[k]];
    SumSnoc(featNums[..k], featNums[k]);
    if k + 1 < l {
      PrefixSumsGrow(featNums, k + 1, l);
      assert featNums[..k + 2] == featNums[..k + 1] + [featNums[k + 1]];
      SumSnoc(featNums[..k + 1], featNums[k + 1]);
    }
  }

  /** The offsets never decrease and stay within [0, feature_length]. */
  lemma IndexMappingMonotone(featNums: seq<nat>, k: nat, l: nat)
    requires k <= l <= |featNums|
    ensures 0 <= Sum(featNums[..k]) <= Sum(featNums[..l]) <= Sum(featNums)
  {
    SumNat(featNums[..k]);
    assert featNums[..|featNums|] == featNums;
    if k < l {
      PrefixSumsGrow(featNums, k, l);
    }
    if l < |featNums| {
      PrefixSumsGrow(featNums, l, |featNums|);
    }
  }

  /** `inputs + index_mapping`: the field-local ids of one input row moved to
      the global index space. */
  function Offset(ids: seq<int>, indexMapping: seq<int>): (r: seq<int>)
    requires |ids| == |indexMapping|
    ensures |r| == |ids|
  {
    seq(|ids|, k requires 0 <= k < |ids| => ids[k] + indexMapping[k])
  }

  /** A field-local id in [0, feat_num_k) lands in field k's own range
      [offset_k, offset_k + feat_num_k), inside [0, featureLength); two
      fields never share a global index. */
  lemma OffsetInRange(featNums: seq<nat>, ids: seq<int>)
    requires |ids| == |featNums|
    requires forall k :: 0 <= k < |ids| ==> 0 <= ids[k] < featNums[k]
    ensures var r := Offset(ids, seq(|featNums|, k requires 0 <= k < |featNums| => Sum(featNums[..k])));
      && (forall k :: 0 <= k < |r| ==> Sum(featNums[..k]) <= r[k] < Sum(featNums[..k]) + featNums[k])
      && (forall k :: 0 <= k < |r| ==> 0 <= r[k] < Sum(featNums))
      && (forall k, l :: 0 <= k < l < |r| ==> r[k] < r[l])
  {
    var offsets := seq(|featNums|, k requires 0 <= k < |featNums| => Sum(featNums[..k]));
    var r := Offset(ids, offsets);
    forall k | 0 <= k < |r| ensures 0 <= r[k] < Sum(featNums) {
      SumNat(featNums[..k]);
      PrefixSumsGrow(featNums, k, |featNums|);
      assert featNums[..|featNums|] == featNums;
    }
    forall k, l | 0 <= k < l < |r| ensures r[k] < r[l] {
      PrefixSumsGrow(featNums, k, l);
    }
  }

  /** What `FFM_Layer.__init__` fixes besides the offsets: one field per column. */
  method FfmLayerInit(featNums: seq<nat>) returns (indexMapping: seq<int>, featureLength: int, fieldNum: nat)
    ensures |indexMapping| == fieldNum == |featNums|
    ensures forall k :: 0 <= k < |featNums| ==> indexMapping[k] == Sum(featNums[..k])
    ensures featureLength == Sum(featNums)
  {
    indexMapping, featureLength := IndexMapping(featNums);
    fieldNum := |featNums|;
  }

  function Dot(a: seq<int>, b: seq<int>): int
    requires |a| == |b|
  {
    if a == [] then 0 else a[0] * b[0] + Dot(a[1..], b[1..])
  }

  /** The product of two fields' latent vectors (0 for a pair that does not
      name two fields of equal width, which the field pairs never do). */
  function PairDot(latent: seq<seq<int>>, p: (int, int)): int
  {
    if 0 <= p.0 < |latent| && 0 <= p.1 < |latent| && |latent[p.0]| == |latent[p.1]|
    then Dot(latent[p.0], latent[p.1]) else 0
  }

  /** The sum of the latent products over a list of field pairs. */
  function PairSum(latent: seq<seq<int>>, ps: seq<(int, int)>): int
  {
    if ps == [] then 0 else PairSum(latent, ps[..|ps| - 1]) + PairDot(latent, ps[|ps| - 1])
  }

  lemma RowsBelowAll(n: nat)
    ensures RowsBelow(n, n) == UpperPairs(n)
  {
    if n > 0 {
      assert RowPairs(n - 1, n) == [];
    }
  }

  lemma PairSumStep(latent: seq<seq<int>>, i: nat, j: nat)
    requires i < j < |latent| && |latent[i]| == |latent[j]|
    ensures PairSum(latent, RowsBelow(i, |latent|) + RowPairs(i, |latent|)[..j - i]) ==
      PairSum(latent, RowsBelow(i, |latent|) + RowPairs(i, |latent|)[..j - i - 1]) + Dot(latent[i], latent[j])
  {
    var below, row := RowsBelow(i, |latent|), RowPairs(i, |latent|);
    var ps := below + row[..j - i - 1];
    assert row[..j - i] == row[..j - i - 1] + [(i, j)];
    assert below + row[..j - i] == ps + [(i, j)];
    assert (ps + [(i, j)])[..|ps|] == ps;
    assert PairDot(latent, (i, j)) == Dot(latent[i], latent[j]);
  }

  lemma PairSumRow(latent: seq<seq<int>>, i: nat)
    requires i < |latent|
    ensures RowsBelow(i + 1, |latent|) == RowsBelow(i, |latent|) + RowPairs(i, |latent|)[..|latent| - i - 1]
  {
    assert RowPairs(i, |latent|)[..|latent| - i - 1] == RowPairs(i, |latent|);
  }

  /** The FFM field second-order term for one example: the double loop over
      i < j < field_num adding the product of the two fields' latent vectors.
      It visits the pairs of UpperPairs (each once, n(n-1)/2 of them). */
  method FfmSecondOrder(latent: seq<seq<int>>, k: nat) returns (secondOrder: int)
    requires forall i :: 0 <= i < |latent| ==> |latent[i]| == k
    ensures secondOrder == PairSum(latent, UpperPairs(|latent|))
  {
    var fieldNum := |latent|;
    secondOrder := 0;
    for i := 0 to fieldNum
      invariant secondOrder == PairSum(latent, RowsBelow(i, fieldNum))
    {
      assert RowsBelow(i, fieldNum) + RowPairs(i, fieldNum)[..0] == RowsBelow(i, fieldNum);
      for j := i + 1 to fieldNum
        invariant secondOrder == PairSum(latent, RowsBelow(i, fieldNum) + RowPairs(i, fieldNum)[..j - i - 1])
      {
        PairSumStep(latent, i, j);
        secondOrder := secondOrder + Dot(latent[i], latent[j]);
      }
      PairSumRow(latent, i);
    }
    RowsBelowAll(fieldNum);
  }

  /** The AFM pair-wise interaction lists: one (row, col) per element of
      `itertools.combinations(range(n), 2)`. */
  method AfmRowCol(n: nat) returns (row: seq<int>, col: seq<int>)
    ensures |row| == |col| == n * (n - 1) / 2
    ensures forall k :: 0 <= k < |row| ==> 0 <= row[k] < col[k] < n
    ensures forall k, l :: 0 <= k < l < |row| ==> LexLess((row[k], col[k]), (row[l], col[l]))
  {
    var combinations := UpperPairs(n);
    UpperPairsSpec(n);
    row, col := [], [];
    for k := 0 to |combinations|
      invariant |row| == |col| == k
      invariant forall m :: 0 <= m < k ==> (row[m], col[m]) == combinations[m]
    {
      row, col := row + [combinations[k].0], col + [combinations[k].1];
    }
    assert forall m :: 0 <= m < |row| ==> combinations[m] in combinations;
  }

  /** `CIN.build`: `field_nums = [embedding_nums] + cin_size`, and weight i
      has shape (1, field_nums[0] * field_nums[i], field_nums[i + 1]). */
  function CinWeightShapes(embeddingNums: nat, cinSize: seq<nat>): (r: seq<(int, int, int)>)
    ensures |r| == |cinSize|
  {
    var fieldNums := [embeddingNums] + cinSize;
    seq(|cinSize|, i requires 0 <= i < |cinSize| => (1, fieldNums[0] * fieldNums[i], fieldNums[i + 1]))
  }

  /** The weights chain: the first consumes embedding_nums^2 channels, each
      later one embedding_nums times the previous layer's output, which is the
      width `call` reshapes to at that layer; layer i outputs cin_size[i]. */
  lemma CinWeightsChain(embeddingNums: nat, cinSize: seq<nat>)
    ensures var r := CinWeightShapes(embeddingNums, cinSize);
      && (|r| > 0 ==> r[0].1 == embeddingNums * embeddingNums)
      && (forall i :: 0 < i < |r| ==> r[i].1 == embeddingNums * r[i - 1].2)
      && (forall i :: 0 <= i < |r| ==> r[i].0 == 1 && r[i].2 == cinSize[i])
      && (forall i :: 0 <= i < |r| ==> r[i].1 == embeddingNums * ([embeddingNums] + cinSize)[i])
  {
    var r := CinWeightShapes(embeddingNums, cinSize);
    var fieldNums := [embeddingNums] + cinSize;
    forall i | 0 <= i < |r|
      ensures r[i] == (1, embeddingNums * fieldNums[i], cinSize[i])
    {
      assert fieldNums[i + 1] == cinSize[i];
    }
    forall i | 0 < i < |r|
      ensures r[i].1 == embeddingNums * r[i - 1].2
    {
      assert fieldNums[i] == cinSize[i - 1];
    }
  }

  /** The shapes `CIN.call` works with: at layer idx the last hidden result
      has field_nums[idx] rows (the input's embedding_nums at first, then the
      previous layer's H), the outer product with the input is reshaped to
      embedding_nums times that many channels, and the layer yields
      cin_size[idx] rows; the result concatenates the layers' rows. */
  method CinCall(embeddingNums: nat, cinSize: seq<nat>) returns (reshapeWidths: seq<int>, outputRows: int)
    ensures |reshapeWidths| == |cinSize|
    ensures forall i :: 0 <= i < |cinSize| ==> reshapeWidths[i] == CinWeightShapes(embeddingNums, cinSize)[i].1
    ensures outputRows == Sum(cinSize)
  {
    var rows := embeddingNums;
    reshapeWidths, outputRows := [], 0;
    for idx := 0 to |cinSize|
      invariant |reshapeWidths| == idx
      invariant rows == ([embeddingNums] + cinSize)[idx]
      invariant forall i :: 0 <= i < idx ==> reshapeWidths[i] == CinWeightShapes(embeddingNums, cinSize)[i].1
      invariant outputRows == Sum(cinSize[..idx])
    {
      reshapeWidths := reshapeWidths + [embeddingNums * rows];
      rows := cinSize[idx];
      assert cinSize[..idx + 1] == cinSize[..idx] + [cinSize[idx]];
      SumSnoc(cinSize[..idx], cinSize[idx]);
      outputRows := outputRows + rows;
    }
    assert cinSize[..|cinSize|] == cinSize;
  }
}
