/** The sequence helpers of `SequentialDataset`: id re-mapping of a column,
    context windows, padding, masking, per-user histories and sliding
    windows. */
module Sequential {
  import opened Py

  // ---------------------------------------------------------------------
  // map_column

  ghost predicate StrictlyIncreasing(s: seq<int>)
  {
    forall i, j :: 0 <= i < j < |s| ==> s[i] < s[j]
  }

  /** Adds x to a strictly increasing list unless it is already there. */
  function InsertUnique(x: int, s: seq<int>): (r: seq<int>)
    requires StrictlyIncreasing(s)
    ensures StrictlyIncreasing(r)
    ensures forall y :: y in r <==> y == x || y in s
  {
    if s == [] then [x]
    else if x < s[0] then [x] + s
    else if x == s[0] then s
    else
      var t := InsertUnique(x, s[1..]);
      assert forall y :: y in s <==> y == s[0] || y in s[1..];
      assert forall j :: 0 <= j < |t| ==> t[j] in t;
      assert forall j :: 1 <= j < |s| ==> s[0] < s[j];
      [s[0]] + t
  }

  /** `sorted(list(df[col_name].unique()))`. */
  function SortedUnique(s: seq<int>): (r: seq<int>)
    ensures StrictlyIncreasing(r)
    ensures forall y :: y in r <==> y in s
  {
    if s == [] then []
    else
      var init := s[..|s| - 1];
      assert forall y :: y in s <==> y == s[|s| - 1] || y in init;
      InsertUnique(s[|s| - 1], SortedUnique(init))
  }

  /** `{k: i + 2 for i, k in enumerate(values)}`. */
  function Mapping(values: seq<int>): (m: map<int, int>)
    ensures forall k :: k in m <==> k in values
  {
    if values == [] then map[]
    else Mapping(values[..|values| - 1])[values[|values| - 1] := |values| + 1]
  }

  /** `{v: k for k, v in mapping.items()}`, iterating the mapping in its
      insertion order, which is the order of `values`. */
  function InverseMapping(values: seq<int>): (m: map<int, int>)
    ensures forall v :: v in m <==> 2 <= v < |values| + 2
  {
    if values == [] then map[]
    else InverseMapping(values[..|values| - 1])[|values| + 1 := values[|values| - 1]]
  }

  lemma {:induction false} MappingAt(values: seq<int>, i: nat)
    requires StrictlyIncreasing(values)
    requires i < |values|
    ensures Mapping(values)[values[i]] == i + 2
    ensures InverseMapping(values)[i + 2] == values[i]
  {
    var init := values[..|values| - 1];
    if i < |values| - 1 {
      MappingAt(init, i);
      assert values[i] == init[i] != values[|values| - 1];
    }
  }

  /** Every key of the mapping is one of the values. */
  lemma {:induction false} MappingIndex(values: seq<int>, k: int) returns (i: nat)
    requires k in Mapping(values)
    ensures i < |values| && values[i] == k
  {
    var init := values[..|values| - 1];
    if k == values[|values| - 1] {
      i := |values| - 1;
    } else {
      i := MappingIndex(init, k);
    }
  }

  /** The mapping's keys are the distinct values of the column, and each
      goes to a number in 2 .. n + 1 (n the number of distinct values) that
      the inverse mapping sends back to it. */
  lemma MapColumnSpec(col: seq<int>, k: int)
    ensures var values := SortedUnique(col);
      var m := Mapping(values);
      && (k in m <==> k in col)
      && (k in m ==> 2 <= m[k] <= |values| + 1 && m[k] in InverseMapping(values) && InverseMapping(values)[m[k]] == k)
  {
    var values := SortedUnique(col);
    if k in Mapping(values) {
      var i := MappingIndex(values, k);
      MappingAt(values, i);
    }
  }

  /** The mapping preserves order, so it is injective. */
  lemma MappingOrdered(col: seq<int>, k1: int, k2: int)
    requires k1 in Mapping(SortedUnique(col)) && k2 in Mapping(SortedUnique(col)) && k1 < k2
    ensures Mapping(SortedUnique(col))[k1] < Mapping(SortedUnique(col))[k2]
  {
    MappingMonotone(SortedUnique(col), k1, k2);
  }

  /** In a strictly increasing sequence the smaller value comes first. */
  lemma IncreasingIndex(values: seq<int>, i: nat, j: nat)
    requires StrictlyIncreasing(values)
    requires i < |values| && j < |values| && values[i] < values[j]
    ensures i < j
  {
  }

  lemma MappingMonotone(values: seq<int>, k1: int, k2: int)
    requires StrictlyIncreasing(values)
    requires k1 in Mapping(values) && k2 in Mapping(values) && k1 < k2
    ensures Mapping(values)[k1] < Mapping(values)[k2]
  {
    var i := MappingIndex(values, k1);
    var j := MappingIndex(values, k2);
    IncreasingIndex(values, i, j);
    MappingAt(values, i);
    MappingAt(values, j);
  }

  /** Every id of the inverse mapping names a value that maps back to it. */
  lemma InverseMappingExact(col: seq<int>, v: int)
    requires v in InverseMapping(SortedUnique(col))
    ensures InverseMapping(SortedUnique(col))[v] in Mapping(SortedUnique(col))
    ensures Mapping(SortedUnique(col))[InverseMapping(SortedUnique(col))[v]] == v
  {
    InverseExact(SortedUnique(col), v);
  }

  lemma InverseExact(values: seq<int>, v: int)
    requires StrictlyIncreasing(values)
    requires v in InverseMapping(values)
    ensures InverseMapping(values)[v] in Mapping(values)
    ensures Mapping(values)[InverseMapping(values)[v]] == v
  {
    MappingAt(values, v - 2);
  }

  /** A data frame's integer columns by name. */
  class Frame {
    var columns: map<string, seq<int>>

    constructor (columns: map<string, seq<int>>)
      ensures this.columns == columns
    {
      this.columns := columns;
    }

    /** `map_column`: adds the column `col_name + "_mapped"` holding each
        value's mapped id and returns both mappings; a missing column raises
        KeyError and leaves the frame as it was. */
    method MapColumn(colName: string) returns (r: Result<(map<int, int>, map<int, int>)>)
      modifies this
      ensures colName !in old(columns) ==> r == Err(KeyError) && columns == old(columns)
      ensures colName in old(columns) ==>
        var col := old(columns)[colName];
        var values := SortedUnique(col);
        && r == Ok((Mapping(values), InverseMapping(values)))
        && (forall k :: 0 <= k < |col| ==> col[k] in Mapping(values))
        && columns == old(columns)[colName + "_mapped" := seq(|col|, k requires 0 <= k < |col| => Mapping(values)[col[k]])]
    {
      if colName !in columns {
        return Err(KeyError);
      }
      var col := columns[colName];
      var values := SortedUnique(col);
      var mapping := Mapping(values);
      var inverseMapping := InverseMapping(values);
      assert forall k :: 0 <= k < |col| ==> col[k] in col;
      columns := columns[colName + "_mapped" := seq(|col|, k requires 0 <= k < |col| => mapping[col[k]])];
      r := Ok((mapping, inverseMapping));
    }
  }

  // ---------------------------------------------------------------------
  // get_context

  /** `random.randint(10, n - val_context_size)` for a random draw, or the
      ValueError of an empty range. */
  function TrainEnd(n: nat, valContextSize: int, draw: nat): (r: Result<int>)
    ensures r.Ok? <==> 10 <= n - valContextSize
    ensures r.Ok? ==> 10 <= r.value <= n - valContextSize
    ensures r.Err? ==> r.error == ValueError
  {
    if n - valContextSize < 10 then Err(ValueError)
    else Ok(10 + draw % (n - valContextSize - 9))
  }

  /** `get_context`: the rows [max(0, end - context_size), end), with end a
      random point for "train" and the number of rows for "valid"/"test". */
  function GetContext<T>(rows: seq<T>, split: string, contextSize: int, valContextSize: int, draw: nat): (r: Result<seq<T>>)
  {
    var endIndex :-
      if split == "train" then TrainEnd(|rows|, valContextSize, draw)
      else if split == "valid" || split == "test" then Ok(|rows|)
      else Err(ValueError);
    Ok(Slice(rows, Max(0, endIndex - contextSize), endIndex))
  }

  /** "valid" and "test" give the last min(n, context_size) rows; a split
      other than these and "train" raises ValueError. */
  lemma GetContextEval<T>(rows: seq<T>, split: string, contextSize: nat, valContextSize: int, draw: nat)
    ensures split == "valid" || split == "test" ==>
      GetContext(rows, split, contextSize, valContextSize, draw) == Ok(rows[|rows| - Min(|rows|, contextSize)..])
    ensures split != "train" && split != "valid" && split != "test" ==>
      GetContext(rows, split, contextSize, valContextSize, draw) == Err(ValueError)
  {
    if split == "valid" || split == "test" {
      assert Slice(rows, Max(0, |rows| - contextSize), |rows|) == rows[|rows| - Min(|rows|, contextSize)..];
    }
  }

  /** "train" fails exactly when fewer than 10 + val_context_size rows exist;
      otherwise it gives the up to context_size rows ending at a point
      between 10 and n - val_context_size. */
  lemma GetContextTrain<T>(rows: seq<T>, contextSize: nat, valContextSize: nat, draw: nat)
    ensures var r := GetContext(rows, "train", contextSize, valContextSize, draw);
      && (r.Ok? <==> 10 + valContextSize <= |rows|)
      && (r.Ok? ==> exists e :: 10 <= e <= |rows| - valContextSize && r.value == rows[e - Min(e, contextSize)..e])
  {
    var r := GetContext(rows, "train", contextSize, valContextSize, draw);
    if r.Ok? {
      var e := TrainEnd(|rows|, valContextSize, draw).value;
      assert r.value == rows[e - Min(e, contextSize)..e];
    }
  }

  // ---------------------------------------------------------------------
  // pad_list

  /** `[pad_val] * k`. */
  function Repeat<T>(x: T, k: int): (r: seq<T>)
    ensures |r| == Max(0, k)
    ensures forall i :: 0 <= i < |r| ==> r[i] == x
  {
    seq(Max(0, k), _ => x)
  }

  /** `pad_list`: pads a short list to history_size, in front in "left"
      mode and behind in any other mode. */
  function PadList<T>(xs: seq<T>, historySize: int, padVal: T, mode: string): (r: seq<T>)
  {
    if |xs| < historySize then
      if mode == "left" then Repeat(padVal, historySize - |xs|) + xs
      else xs + Repeat(padVal, historySize - |xs|)
    else xs
  }

  /** A list shorter than history_size comes out exactly history_size long,
      holding the original elements in order after (left mode) or before
      (other modes) the padding; a longer one comes back unchanged. */
  lemma PadListSpec<T>(xs: seq<T>, historySize: int, padVal: T, mode: string)
    ensures var r := PadList(xs, historySize, padVal, mode);
      && (|xs| >= historySize ==> r == xs)
      && (|xs| < historySize ==> |r| == historySize)
      && (|xs| < historySize && mode == "left" ==>
            r[historySize - |xs|..] == xs && forall i :: 0 <= i < historySize - |xs| ==> r[i] == padVal)
      && (|xs| < historySize && mode != "left" ==>
            r[..|xs|] == xs && forall i :: |xs| <= i < historySize ==> r[i] == padVal)
  {
    var r := PadList(xs, historySize, padVal, mode);
    if |xs| < historySize && mode == "left" {
      assert r[historySize - |xs|..] == xs;
    }
    if |xs| < historySize && mode != "left" {
      assert r[..|xs|] == xs;
    }
  }

  /** Padding a padded list changes nothing. */
  lemma PadListIdempotent<T>(xs: seq<T>, historySize: int, padVal: T, mode: string)
    ensures PadList(PadList(xs, historySize, padVal, mode), historySize, padVal, mode) ==
      PadList(xs, historySize, padVal, mode)
  {
    PadListSpec(xs, historySize, padVal, mode);
  }

  // ---------------------------------------------------------------------
  // mask_list and mask_last_elements_list

  /** `mask_list`: element i is kept when the i-th draw of the freshly
      seeded generator is below p and becomes the mask otherwise. */
  function MaskList<T>(l: seq<T>, draws: nat -> real, p: real, mask: T): (r: seq<T>)
    ensures |r| == |l|
  {
    seq(|l|, i requires 0 <= i < |l| => if draws(i) < p then l[i] else mask)
  }

  /** Each output element is the input element or the mask. */
  lemma MaskListSpec<T>(l: seq<T>, draws: nat -> real, p: real, mask: T)
    ensures var r := MaskList(l, draws, p, mask);
      forall i :: 0 <= i < |l| ==> r[i] == l[i] || r[i] == mask
  {
  }

  /** `mask_last_elements_list` as written: `l1[:-v] + mask_list(l1[-v:], 0.5)`. */
  function MaskLastElements<T>(l: seq<T>, valContextSize: int, draws: nat -> real, mask: T): (r: seq<T>)
  {
    SliceTo(l, -valContextSize) + MaskList(SliceFrom(l, -valContextSize), draws, 0.5, mask)
  }

  /** The length is kept, and for a positive val_context_size every element
      before the last val_context_size is unchanged. */
  lemma MaskLastElementsSpec<T>(l: seq<T>, valContextSize: int, draws: nat -> real, mask: T)
    ensures |MaskLastElements(l, valContextSize, draws, mask)| == |l|
    ensures valContextSize > 0 ==>
      var r := MaskLastElements(l, valContextSize, draws, mask);
      r[..Max(0, |l| - valContextSize)] == l[..Max(0, |l| - valContextSize)]
  {
    if valContextSize > 0 {
      SplitAtMinusK(l, valContextSize);
    }
  }

  /** With val_context_size = 0, `l1[:-0]` is empty and `l1[-0:]` is the whole
      list, so every element may be masked rather than none. */
  lemma MaskLastElementsZero()
    ensures MaskLastElements([7], 0, _ => 0.9, 1) == [1]
  {
    assert SliceFrom([7], 0) == [7];
  }

  /** The intended rule: mask among the last max(0, v) elements only. */
  function MaskLastElementsFixed<T>(l: seq<T>, valContextSize: int, draws: nat -> real, mask: T): (r: seq<T>)
    ensures |r| == |l|
  {
    var keep := |l| - Min(Max(0, valContextSize), |l|);
    l[..keep] + MaskList(l[keep..], draws, 0.5, mask)
  }

  /** The intended rule leaves all but the last v elements unchanged for every
      v, masks nothing for v <= 0, and agrees with the code for v >= 1. */
  lemma MaskLastElementsFixedSpec<T>(l: seq<T>, valContextSize: int, draws: nat -> real, mask: T)
    ensures var r := MaskLastElementsFixed(l, valContextSize, draws, mask);
      && r[..Max(0, |l| - Max(0, valContextSize))] == l[..Max(0, |l| - Max(0, valContextSize))]
      && (valContextSize <= 0 ==> r == l)
      && (valContextSize > 0 ==> r == MaskLastElements(l, valContextSize, draws, mask))
  {
    var r := MaskLastElementsFixed(l, valContextSize, draws, mask);
    var keep := |l| - Min(Max(0, valContextSize), |l|);
    assert r[..keep] == l[..keep];
    if valContextSize <= 0 {
      assert l[keep..] == [];
      assert r == l[..keep];
    } else {
      SplitAtMinusK(l, valContextSize);
    }
  }

  // ---------------------------------------------------------------------
  // make_user_history

  /** A (user, item, rating) triple. */
  datatype Triple = Triple(u: int, i: int, r: int)

  /** The items of the triples whose user index denotes list slot p, in input
      order. */
  function UserItems(data: seq<Triple>, p: nat, numUsers: nat): (r: seq<int>)
    ensures |r| <= |data|
  {
    if data == [] then []
    else
      var t := data[|data| - 1];
      UserItems(data[..|data| - 1], p, numUsers) + (if NormIndex(t.u, numUsers) == Some(p) then [t.i] else [])
  }

  /** One more triple adds its item to its own user's list only. */
  lemma UserItemsSnoc(data: seq<Triple>, k: nat, p: nat, numUsers: nat)
    requires k < |data|
    ensures UserItems(data[..k + 1], p, numUsers) ==
      UserItems(data[..k], p, numUsers) + (if NormIndex(data[k].u, numUsers) == Some(p) then [data[k].i] else [])
  {
    assert data[..k + 1][..k] == data[..k];
  }

  /** One step of the loop: appending triple k's item to its slot keeps
      every slot equal to its user's items so far. */
  lemma HistoryStep(data: seq<Triple>, k: nat, n: nat, h: seq<seq<int>>, slot: nat, h': seq<seq<int>>)
    requires k < |data| && |h| == n
    requires NormIndex(data[k].u, n) == Some(slot)
    requires AllUsersValid(data[..k], n)
    requires forall p :: 0 <= p < n ==> h[p] == UserItems(data[..k], p, n)
    requires slot < n && h' == h[slot := h[slot] + [data[k].i]]
    ensures AllUsersValid(data[..k + 1], n)
    ensures forall p :: 0 <= p < n ==> h'[p] == UserItems(data[..k + 1], p, n)
  {
    forall p | 0 <= p < n
      ensures h'[p] == UserItems(data[..k + 1], p, n)
    {
      UserItemsSnoc(data, k, p, n);
    }
    assert forall j :: 0 <= j < k ==> data[..k + 1][j] == data[..k][j];
  }

  function TotalLength(h: seq<seq<int>>): nat
  {
    if h == [] then 0 else |h[0]| + TotalLength(h[1..])
  }

  lemma {:induction false} TotalLengthAppend(h: seq<seq<int>>, p: nat, x: int)
    requires p < |h|
    ensures TotalLength(h[p := h[p] + [x]]) == TotalLength(h) + 1
  {
    if p > 0 {
      TotalLengthAppend(h[1..], p - 1, x);
      assert h[p := h[p] + [x]][1..] == h[1..][p - 1 := h[1..][p - 1] + [x]];
    }
  }

  /** `[ [] for _ in range(n) ]`. */
  function EmptyLists(n: nat): (r: seq<seq<int>>)
    ensures |r| == n
  {
    seq(n, _ => [])
  }

  lemma {:induction false} TotalLengthEmpty(n: nat)
    ensures TotalLength(EmptyLists(n)) == 0
  {
    if n > 0 {
      assert EmptyLists(n)[1..] == EmptyLists(n - 1);
      TotalLengthEmpty(n - 1);
    }
  }

  ghost predicate AllUsersValid(data: seq<Triple>, numUsers: nat)
  {
    forall k :: 0 <= k < |data| ==> NormIndex(data[k].u, numUsers).Some?
  }

  /** `make_user_history`: appends each triple's item to its user's list;
      a user index outside the list raises IndexError. On success slot p
      holds the items of p's triples in input order, and the lists together
      hold one entry per triple. */
  method MakeUserHistory(data: seq<Triple>, numUsers: int) returns (r: Result<seq<seq<int>>>)
    ensures r.Ok? <==> AllUsersValid(data, Max(0, numUsers))
    ensures r.Err? ==> r.error == IndexError
    ensures r.Ok? ==> |r.value| == Max(0, numUsers)
    ensures r.Ok? ==> forall p :: 0 <= p < |r.value| ==> r.value[p] == UserItems(data, p, Max(0, numUsers))
    ensures r.Ok? ==> TotalLength(r.value) == |data|
  {
    var n := Max(0, numUsers);
    var userHistory := EmptyLists(n);
    TotalLengthEmpty(n);
    for k := 0 to |data|
      invariant |userHistory| == n
      invariant AllUsersValid(data[..k], n)
      invariant forall p :: 0 <= p < n ==> userHistory[p] == UserItems(data[..k], p, n)
      invariant TotalLength(userHistory) == k
    {
      var t := data[k];
      match NormIndex(t.u, n)
      case None =>
        return Err(IndexError);
      case Some(slot) =>
        TotalLengthAppend(userHistory, slot, t.i);
        var next := userHistory[slot := userHistory[slot] + [t.i]];
        HistoryStep(data, k, n, userHistory, slot, next);
        userHistory := userHistory[slot := userHistory[slot] + [t.i]];
    }
    assert data[..|data|] == data;
    r := Ok(userHistory);
  }

  // ---------------------------------------------------------------------
  // create_sequences

  /** The `while True` loop of `create_sequences` stops: a positive
      window, and a positive step unless the first slice is already short.
      (A zero window, or a zero step on values that fill a window, appends
      forever.) */
  predicate Stops(n: nat, windowSize: nat, stepSize: nat)
  {
    windowSize >= 1 && (stepSize >= 1 || n < windowSize)
  }

  /** The number of full windows the loop takes before the tail. */
  function WindowCount(n: nat, windowSize: nat, stepSize: nat): nat
    requires Stops(n, windowSize, stepSize)
  {
    if n < windowSize then 0 else (n - windowSize) / stepSize + 1
  }

  /** What `create_sequences` computes: the windows starting at 0, step,
      2 step, ... that fit, then the last window_size values; nothing when
      the values are shorter than one window. */
  function Windows<T>(values: seq<T>, windowSize: nat, stepSize: nat): seq<seq<T>>
    requires Stops(|values|, windowSize, stepSize)
  {
    var n := |values|;
    if n < windowSize then []
    else
      seq(WindowCount(n, windowSize, stepSize), k => Slice(values, k * stepSize, k * stepSize + windowSize))
        + [values[n - windowSize..]]
  }

  /** `create_sequences`: the `while True` loop advancing start_index by
      step_size until a short slice, then the tail window if it is full. */
  method CreateSequences<T>(values: seq<T>, windowSize: nat, stepSize: nat) returns (sequences: seq<seq<T>>)
    requires Stops(|values|, windowSize, stepSize)
    ensures sequences == Windows(values, windowSize, stepSize)
  {
    var count := WindowCount(|values|, windowSize, stepSize);
    sequences := [];
    var startIndex := 0;
    while true
      invariant startIndex == |sequences| * stepSize
      invariant |sequences| <= count
      invariant forall k :: 0 <= k < |sequences| ==>
        sequences[k] == Slice(values, k * stepSize, k * stepSize + windowSize)
      decreases count - |sequences|
    {
      WindowStep(values, windowSize, stepSize, |sequences|);
      var endIndex := startIndex + windowSize;
      var window := Slice(values, startIndex, endIndex);
      if |window| < windowSize {
        window := SliceFrom(values, -(windowSize as int));
        WindowsFromPrefix(values, windowSize, stepSize, sequences);
        if |window| == windowSize {
          sequences := sequences + [window];
        }
        break;
      }
      sequences := sequences + [window];
      startIndex := startIndex + stepSize;
    }
  }

  /** The loop's test: window k is full exactly when k is below the window
      count, and the next window starts step_size further on. */
  lemma WindowStep<T>(values: seq<T>, windowSize: nat, stepSize: nat, k: nat)
    requires Stops(|values|, windowSize, stepSize)
    ensures |Slice(values, k * stepSize, k * stepSize + windowSize)| == windowSize <==>
      k < WindowCount(|values|, windowSize, stepSize)
    ensures (k + 1) * stepSize == k * stepSize + stepSize
  {
    WindowFits(|values|, windowSize, stepSize, k);
  }

  /** After the full windows, the tail (when it is full) completes `Windows`. */
  lemma WindowsFromPrefix<T>(values: seq<T>, windowSize: nat, stepSize: nat, ws: seq<seq<T>>)
    requires Stops(|values|, windowSize, stepSize)
    requires |ws| == WindowCount(|values|, windowSize, stepSize)
    requires forall k :: 0 <= k < |ws| ==> ws[k] == Slice(values, k * stepSize, k * stepSize + windowSize)
    ensures var tail := SliceFrom(values, -(windowSize as int));
      (if |tail| == windowSize then ws + [tail] else ws) == Windows(values, windowSize, stepSize)
  {
    var n := |values|;
    var tail := SliceFrom(values, -(windowSize as int));
    assert n >= windowSize ==> tail == values[n - windowSize..];
    if n >= windowSize {
      assert ws == seq(|ws|, k => Slice(values, k * stepSize, k * stepSize + windowSize));
    }
  }

  lemma {:induction false} MulLe(a: nat, b: nat, c: nat)
    requires a <= b
    ensures a * c <= b * c
    decreases b - a
  {
    if a < b {
      MulLe(a, b - 1, c);
      assert b * c == (b - 1) * c + c;
    }
  }

  /** Window k fits exactly when k is below the window count. */
  lemma WindowFits(n: nat, windowSize: nat, stepSize: nat, k: nat)
    requires Stops(n, windowSize, stepSize)
    ensures k * stepSize + windowSize <= n <==> k < WindowCount(n, windowSize, stepSize)
  {
    if n >= windowSize {
      var q := (n - windowSize) / stepSize;
      assert n - windowSize == q * stepSize + (n - windowSize) % stepSize;
      if k <= q {
        MulLe(k, q, stepSize);
      } else {
        MulLe(q + 1, k, stepSize);
      }
    }
  }

  /** Every window holds exactly window_size consecutive values: window k,
      before the last, starts at k * step_size, and the last is the tail.
      There are none when the values are shorter than one window. */
  lemma WindowsSpec<T>(values: seq<T>, windowSize: nat, stepSize: nat)
    requires Stops(|values|, windowSize, stepSize)
    ensures var r := Windows(values, windowSize, stepSize);
      && (r == [] <==> |values| < windowSize)
      && (forall k :: 0 <= k < |r| ==> |r[k]| == windowSize)
      && (forall k :: 0 <= k < |r| - 1 ==>
            k * stepSize + windowSize <= |values| && r[k] == values[k * stepSize..k * stepSize + windowSize])
      && (r != [] ==> r[|r| - 1] == values[|values| - windowSize..])
  {
    var r := Windows(values, windowSize, stepSize);
    forall k | 0 <= k < |r| - 1
      ensures k * stepSize + windowSize <= |values| && r[k] == values[k * stepSize..k * stepSize + windowSize]
    {
      WindowFits(|values|, windowSize, stepSize, k);
    }
  }

  /** When step_size divides len(values) - window_size the last full window
      already is the tail, and the loop appends it a second time. */
  lemma TailRepeats<T>(values: seq<T>, windowSize: nat, stepSize: nat)
    requires windowSize >= 1 && stepSize >= 1
    requires |values| >= windowSize
    ensures var r := Windows(values, windowSize, stepSize);
      (|values| - windowSize) % stepSize == 0 ==> r[|r| - 2] == r[|r| - 1]
  {
    var n := |values|;
    var q := (n - windowSize) / stepSize;
    if (n - windowSize) % stepSize == 0 {
      assert q * stepSize == n - windowSize;
      var r := Windows(values, windowSize, stepSize);
      assert WindowCount(n, windowSize, stepSize) == q + 1;
      assert |r| == q + 2;
      assert r[q] == Slice(values, q * stepSize, q * stepSize + windowSize);
    }
  }
}
