/** The dimension loop of `CompressedInteractionNetwork.__init__`: the
    input channels of each 1-d convolution and the width of the final
    linear layer. */
module XDeepFm {
  import opened Seqs

  /** How many of layer i's output rows feed the next layer and the final
      linear layer: half (floor) of every non-last layer under split_half. */
  function Kept(sizes: seq<nat>, i: nat, splitHalf: bool): (r: nat)
    requires i < |sizes|
    ensures r <= sizes[i]
    ensures !splitHalf || i == |sizes| - 1 ==> r == sizes[i]
  {
    if splitHalf && i != |sizes| - 1 then sizes[i] / 2 else sizes[i]
  }

  /** The rows layer i combines with the input: input_dim at the first
      layer, then what the previous layer kept. */
  function PrevDim(inputDim: nat, sizes: seq<nat>, i: nat, splitHalf: bool): nat
    requires i < |sizes|
  {
    if i == 0 then inputDim else Kept(sizes, i - 1, splitHalf)
  }

  function KeptSum(sizes: seq<nat>, n: nat, splitHalf: bool): int
    requires n <= |sizes|
  {
    if n == 0 then 0 else KeptSum(sizes, n - 1, splitHalf) + Kept(sizes, n - 1, splitHalf)
  }

  /** The constructor's loop: one convolution per cross layer, with
      input_dim * prev_dim input channels and cross_layer_size outputs;
      fc_input_dim adds up what each layer keeps. */
  method CinDims(inputDim: nat, crossLayerSizes: seq<nat>, splitHalf: bool)
    returns (convLayers: seq<(int, int)>, fcInputDim: int)
    ensures |convLayers| == |crossLayerSizes|
    ensures forall i :: 0 <= i < |crossLayerSizes| ==>
      convLayers[i] == (inputDim * PrevDim(inputDim, crossLayerSizes, i, splitHalf), crossLayerSizes[i])
    ensures fcInputDim == KeptSum(crossLayerSizes, |crossLayerSizes|, splitHalf)
  {
    var numLayers := |crossLayerSizes|;
    var prevDim := inputDim;
    convLayers, fcInputDim := [], 0;
    for i := 0 to numLayers
      invariant |convLayers| == i
      invariant forall m :: 0 <= m < i ==>
        convLayers[m] == (inputDim * PrevDim(inputDim, crossLayerSizes, m, splitHalf), crossLayerSizes[m])
      invariant i < numLayers ==> prevDim == PrevDim(inputDim, crossLayerSizes, i, splitHalf)
      invariant fcInputDim == KeptSum(crossLayerSizes, i, splitHalf)
    {
      var crossLayerSize := crossLayerSizes[i];
      convLayers := convLayers + [(inputDim * prevDim, crossLayerSize)];
      if splitHalf && i != numLayers - 1 {
        crossLayerSize := crossLayerSize / 2;
      }
      prevDim := crossLayerSize;
      fcInputDim := fcInputDim + prevDim;
    }
  }

  /** Without split_half every layer is kept whole, so the final linear layer
      reads the sum of the cross-layer sizes. */
  lemma {:induction false} NoSplitWidth(sizes: seq<nat>, n: nat)
    requires n <= |sizes|
    ensures KeptSum(sizes, n, false) == Sum(sizes[..n])
  {
    if n > 0 {
      NoSplitWidth(sizes, n - 1);
      assert sizes[..n] == sizes[..n - 1] + [sizes[n - 1]];
      SumSnoc(sizes[..n - 1], sizes[n - 1]);
    }
  }

  /** With split_half the layers before the last contribute half their size and
      the last its full size, so the width lies between half the total and the
      total. */
  lemma {:induction false} SplitWidthBounds(sizes: seq<nat>, n: nat)
    requires n <= |sizes|
    ensures Sum(sizes[..n]) - n <= 2 * KeptSum(sizes, n, true)
    ensures KeptSum(sizes, n, true) <= Sum(sizes[..n])
  {
    if n > 0 {
      SplitWidthBounds(sizes, n - 1);
      assert sizes[..n] == sizes[..n - 1] + [sizes[n - 1]];
      SumSnoc(sizes[..n - 1], sizes[n - 1]);
    }
  }
}
