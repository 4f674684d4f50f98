/** The integer bookkeeping of the product-based neural network: the field
    pairs both product layers combine, the outer-product kernel shape, the
    product-layer dispatch and the MLP input width. */
module Pnn {
  import opened Py
  import opened Pairs

  /** `num_fields * (num_fields - 1) // 2`: the number of field pairs. */
  function NumIx(numFields: nat): (r: nat)
    ensures r == |UpperPairs(numFields)|
  {
    UpperPairsSpec(numFields);
    numFields * (numFields - 1) / 2
  }

  /** `InnerProductNetwork.forward`: the row/col pair lists of a batch with
      num_fields fields (the summed product itself is left out). */
  method InnerPairs(numFields: nat) returns (row: seq<int>, col: seq<int>)
    ensures |row| == |col| == NumIx(numFields)
    ensures forall k :: 0 <= k < |row| ==> 0 <= row[k] < col[k] < numFields
    ensures forall k :: 0 <= k < |row| ==> (row[k], col[k]) == UpperPairs(numFields)[k]
  {
    row, col := RowCol(numFields);
    UpperPairsSpec(numFields);
    assert forall k :: 0 <= k < |row| ==> UpperPairs(numFields)[k] in UpperPairs(numFields);
  }

  /** `OuterProductNetwork.forward` builds the same lists. */
  method OuterPairs(numFields: nat) returns (row: seq<int>, col: seq<int>)
    ensures |row| == |col| == NumIx(numFields)
    ensures forall k :: 0 <= k < |row| ==> (row[k], col[k]) == UpperPairs(numFields)[k]
  {
    row, col := RowCol(numFields);
  }

  /** The shape of the outer-product kernel, by kernel type. */
  function KernelShape(numFields: nat, embedDim: int, kernelType: string): (r: Result<seq<int>>)
    ensures kernelType == "mat" ==> r == Ok([embedDim, NumIx(numFields), embedDim])
    ensures kernelType == "vec" ==> r == Ok([NumIx(numFields), embedDim])
    ensures kernelType == "num" ==> r == Ok([NumIx(numFields), 1])
    ensures r.Err? <==> kernelType !in {"mat", "vec", "num"}
    ensures r.Err? ==> r.error == ValueError
  {
    if kernelType == "mat" then Ok([embedDim, NumIx(numFields), embedDim])
    else if kernelType == "vec" then Ok([NumIx(numFields), embedDim])
    else if kernelType == "num" then Ok([NumIx(numFields), 1])
    else Err(ValueError)
  }

  /** Which product layer a PNN uses. */
  datatype ProductLayer = Inner | Outer(kernel: seq<int>)

  /** What the PNN constructor fixes: the product layer and the MLP input width. */
  datatype PnnDims = PnnDims(pn: ProductLayer, embedOutputDim: int, mlpInputDim: int)

  /** `PNN.__init__`: product type 'inner' or 'outer' (with the default
      'mat' kernel); any other product type raises ValueError. */
  function PnnInit(numFields: nat, embedDim: int, product: string): (r: Result<PnnDims>)
    ensures r.Ok? <==> product == "inner" || product == "outer"
    ensures r.Err? ==> r.error == ValueError
    ensures r.Ok? ==> r.value.embedOutputDim == numFields * embedDim
    ensures r.Ok? ==> r.value.mlpInputDim == |UpperPairs(numFields)| + numFields * embedDim
    ensures r.Ok? && product == "outer" ==> r.value.pn == Outer([embedDim, |UpperPairs(numFields)|, embedDim])
    ensures r.Ok? && product == "inner" ==> r.value.pn == Inner
  {
    var dims := (pn: ProductLayer) => PnnDims(pn, numFields * embedDim, NumIx(numFields) + numFields * embedDim);
    if product == "inner" then Ok(dims(Inner))
    else if product == "outer" then Ok(dims(Outer(KernelShape(numFields, embedDim, "mat").value)))
    else Err(ValueError)
  }

  /** The MLP input is one value per field pair plus the flattened embeddings,
      which is also how many values the forward pass concatenates. */
  lemma MlpInputMatchesConcat(numFields: nat, embedDim: int, product: string)
    requires product == "inner" || product == "outer"
    ensures PnnInit(numFields, embedDim, product).value.mlpInputDim ==
      PnnInit(numFields, embedDim, product).value.embedOutputDim + numFields * (numFields - 1) / 2
  {
    UpperPairsSpec(numFields);
  }
}
