/** The session-dataset helpers: fixed-length training samples, the
    right-aligned history arrays of test samples and of the NextItNet
    format, the train/valid/test partition of the session file, and the
    GRU4Rec row format. */
module Session {
  import opened Py
  import opened Seqs

  // ---------------------------------------------------------------------
  // __train__

  /** `[0] * k`. */
  function Zeros(k: int): (r: seq<int>)
    ensures |r| == Max(0, k)
    ensures forall i :: 0 <= i < |r| ==> r[i] == 0
  {
    seq(Max(0, k), _ => 0)
  }

  /** The session at maxlen: its last maxlen items when longer, else
      left-padded with zeros. */
  function Normalize(session: seq<int>, maxlen: int): seq<int>
  {
    if |session| > maxlen then SliceFrom(session, -maxlen)
    else Zeros(maxlen - |session|) + session
  }

  /** `__train__`: the normalised session without its last item, and
      without its first. */
  function TrainSample(session: seq<int>, maxlen: int): (r: (seq<int>, seq<int>))
  {
    var s := Normalize(session, maxlen);
    (SliceTo(s, -1), SliceFrom(s, 1))
  }

  /** For maxlen >= 1 the session becomes exactly maxlen long: its last
      maxlen items, or zeros followed by the whole session. The input and
      target sequences are the normalised session shifted by one, each
      maxlen - 1 long, and the target at i is the input at i + 1. */
  lemma TrainSampleSpec(session: seq<int>, maxlen: int)
    requires maxlen >= 1
    ensures var s := Normalize(session, maxlen);
      && |s| == maxlen
      && (|session| > maxlen ==> s == session[|session| - maxlen..])
      && (|session| <= maxlen ==>
            s[maxlen - |session|..] == session && forall i :: 0 <= i < maxlen - |session| ==> s[i] == 0)
    ensures var (currSeq, currPos) := TrainSample(session, maxlen);
      var s := Normalize(session, maxlen);
      && |currSeq| == |currPos| == maxlen - 1
      && currSeq == s[..maxlen - 1] && currPos == s[1..]
      && forall i :: 0 <= i < maxlen - 2 ==> currPos[i] == currSeq[i + 1]
  {
    var s := Normalize(session, maxlen);
    NormalizeSpec(session, maxlen);
    SplitAtMinusK(s, 1);
  }

  /** The normalised session is exactly maxlen long: its last maxlen items,
      or zeros followed by the whole session. */
  lemma NormalizeSpec(session: seq<int>, maxlen: int)
    requires maxlen >= 1
    ensures var s := Normalize(session, maxlen);
      && |s| == maxlen
      && (|session| > maxlen ==> s == session[|session| - maxlen..])
      && (|session| <= maxlen ==>
            s[maxlen - |session|..] == session && forall i :: 0 <= i < maxlen - |session| ==> s[i] == 0)
  {
    if |session| > maxlen {
      LastK(session, maxlen);
    } else {
      var s := Normalize(session, maxlen);
      assert s == Zeros(maxlen - |session|) + session;
      assert s[maxlen - |session|..] == session;
    }
  }

  /** With maxlen = 0, `session[-0:]` is the whole session: nothing is cut. */
  lemma TrainMaxlenZero(session: seq<int>)
    requires session != []
    ensures Normalize(session, 0) == session
  {
  }

  // ---------------------------------------------------------------------
  // __test__ and nextitnet_format

  /** An array of length m holding the last min(m, |xs|) elements of xs at
      its end, in order, and zeros before them. */
  function RightAligned(xs: seq<int>, m: nat): (r: seq<int>)
    ensures |r| == m
  {
    seq(m, j requires 0 <= j < m => if j >= m - Min(m, |xs|) then xs[|xs| - m + j] else 0)
  }

  /** The right-aligned array is the training normalisation of the same
      list: its last m elements when longer, zeros and the list otherwise. */
  lemma RightAlignedIsNormalize(xs: seq<int>, m: nat)
    requires m >= 1
    ensures RightAligned(xs, m) == Normalize(xs, m)
  {
    var r := RightAligned(xs, m);
    if |xs| > m {
      LastK(xs, m);
      assert r == xs[|xs| - m..];
    } else {
      var z := Zeros(m - |xs|);
      assert |z| == m - |xs|;
      forall j | 0 <= j < m ensures r[j] == (z + xs)[j] {
        assert r[j] == (if j >= m - Min(m, |xs|) then xs[|xs| - m + j] else 0);
        if j >= m - |xs| {
          assert (z + xs)[j] == xs[j - (m - |xs|)];
        } else {
          assert (z + xs)[j] == z[j];
        }
      }
      assert r == z + xs;
    }
  }

  /** The loop shared by `__test__` and `nextitnet_format`: fill a zero
      array of length maxlen from its end with xs read backwards, stopping
      when the array is full. A negative length raises ValueError; a
      length-0 array with something to write raises IndexError. */
  method FillRightAligned(xs: seq<int>, maxlen: int) returns (r: Result<seq<int>>)
    ensures maxlen < 0 ==> r == Err(ValueError)
    ensures maxlen == 0 ==> r == (if xs == [] then Ok([]) else Err(IndexError))
    ensures maxlen > 0 ==> r == Ok(RightAligned(xs, maxlen))
  {
    if maxlen < 0 {
      return Err(ValueError);
    }
    var a := new int[maxlen](_ => 0);
    var idx := maxlen - 1;
    var k := 0;
    while k < |xs|
      invariant 0 <= k <= |xs|
      invariant k <= maxlen
      invariant idx == maxlen - 1 - k
      invariant maxlen > 0 ==> idx >= 0
      invariant forall j :: 0 <= j < maxlen ==> a[j] == (if j >= maxlen - k then xs[|xs| - maxlen + j] else 0)
    {
      if idx < 0 {
        return Err(IndexError);
      }
      a[idx] := xs[|xs| - 1 - k];
      idx := idx - 1;
      k := k + 1;
      if idx == -1 {
        break;
      }
    }
    assert k == Min(maxlen, |xs|);
    r := Ok(a[..]);
    assert a[..] == RightAligned(xs, maxlen);
  }

  /** `__test__`: the history before the last item, right-aligned in a
      length-maxlen array, and the last item minus one as the label. The
      last item of an empty session raises IndexError. */
  method TestSample(session: seq<int>, maxlen: int) returns (r: Result<(seq<int>, int)>)
    ensures maxlen < 0 ==> r == Err(ValueError)
    ensures maxlen == 0 && |session| >= 2 ==> r == Err(IndexError)
    ensures session == [] && maxlen >= 0 ==> r == Err(IndexError)
    ensures session != [] && maxlen >= 1 ==>
      r == Ok((RightAligned(session[..|session| - 1], maxlen), session[|session| - 1] - 1))
  {
    var history :- FillRightAligned(SliceTo(session, -1), maxlen);
    if session == [] {
      return Err(IndexError);
    }
    SplitAtMinusK(session, 1);
    r := Ok((history, session[|session| - 1] - 1));
  }

  /** A session file line is used when it has at least 5 items. */
  predicate LongEnough(items: seq<int>) { |items| >= 5 }

  function KeptLines(lines: seq<seq<int>>): (r: seq<seq<int>>)
    ensures |r| <= |lines|
  {
    Filter(lines, LongEnough)
  }

  /** Every used line is long enough, and every long-enough line is used. */
  lemma KeptLinesSpec(lines: seq<seq<int>>, items: seq<int>)
    ensures items in KeptLines(lines) <==> items in lines && |items| >= 5
  {
    FilterMem(lines, LongEnough, items);
  }

  /** `nextitnet_format`: one right-aligned length-maxlen array per line of
      at least 5 items, in file order. The first such line raises ValueError
      for a negative maxlen and IndexError for maxlen 0. */
  method NextItNetFormat(lines: seq<seq<int>>, maxlen: int) returns (r: Result<seq<seq<int>>>)
    ensures KeptLines(lines) == [] ==> r == Ok([])
    ensures KeptLines(lines) != [] && maxlen < 0 ==> r == Err(ValueError)
    ensures KeptLines(lines) != [] && maxlen == 0 ==> r == Err(IndexError)
    ensures maxlen >= 1 ==>
      && r.Ok? && |r.value| == |KeptLines(lines)|
      && forall k :: 0 <= k < |r.value| ==> r.value[k] == RightAligned(KeptLines(lines)[k], maxlen)
  {
    var sessions := [];
    for k := 0 to |lines|
      invariant KeptLines(lines[..k]) == [] ==> sessions == []
      invariant KeptLines(lines[..k]) != [] ==> maxlen >= 1
      invariant |sessions| == |KeptLines(lines[..k])|
      invariant forall m :: 0 <= m < |sessions| ==> sessions[m] == RightAligned(KeptLines(lines[..k])[m], maxlen)
    {
      KeptSnoc(lines, k);
      var items := lines[k];
      if |items| < 5 {
        continue;
      }
      var row := FillRightAligned(items, maxlen);
      if row.Err? {
        KeptLinesSpec(lines, items);
        return Err(row.error);
      }
      sessions := sessions + [row.value];
    }
    assert lines[..|lines|] == lines;
    r := Ok(sessions);
  }

  lemma KeptSnoc(lines: seq<seq<int>>, k: nat)
    requires k < |lines|
    ensures KeptLines(lines[..k + 1]) == KeptLines(lines[..k]) + (if |lines[k]| >= 5 then [lines[k]] else [])
  {
    assert lines[..k + 1] == lines[..k] + [lines[k]];
    FilterAppend(lines[..k], [lines[k]], LongEnough);
  }

  // ---------------------------------------------------------------------
  // data_partition

  /** The largest item of a non-empty line. */
  function MaxOf(items: seq<int>): (r: int)
    requires items != []
    ensures r in items
    ensures forall x :: x in items ==> x <= r
  {
    if |items| == 1 then items[0]
    else
      var m := MaxOf(items[1..]);
      assert items == [items[0]] + items[1..];
      Max(items[0], m)
  }

  /** `itemnum`: 0 or the largest item over the used lines. */
  function ItemNum(kept: seq<seq<int>>): (r: int)
    requires forall k :: 0 <= k < |kept| ==> kept[k] != []
    ensures r >= 0
    ensures forall k, x :: 0 <= k < |kept| && x in kept[k] ==> x <= r
    ensures r == 0 || exists k :: 0 <= k < |kept| && r in kept[k]
  {
    if kept == [] then 0
    else
      var init := kept[..|kept| - 1];
      var last := MaxOf(kept[|kept| - 1]);
      assert forall k :: 0 <= k < |init| ==> init[k] == kept[k];
      Max(last, ItemNum(init))
  }

  /** The lines at the given positions, in that order. */
  function Gather(kept: seq<seq<int>>, indices: seq<int>): (r: seq<seq<int>>)
    requires forall k :: 0 <= k < |indices| ==> 0 <= indices[k] < |kept|
    ensures |r| == |indices|
    ensures forall k :: 0 <= k < |indices| ==> r[k] == kept[indices[k]]
  {
    seq(|indices|, k requires 0 <= k < |indices| => kept[indices[k]])
  }

  /** `np.random.permutation(range(n))`: each of 0 .. n - 1 exactly once. */
  ghost predicate IsPermutation(perm: seq<int>, n: nat)
  {
    && |perm| == n
    && (forall k :: 0 <= k < n ==> 0 <= perm[k] < n)
    && (forall k, l :: 0 <= k < l < n ==> perm[k] != perm[l])
    && (forall x :: 0 <= x < n ==> x in perm)
  }

  /** The three index lists of a partition. */
  datatype Partition = Partition(train: seq<seq<int>>, valid: seq<seq<int>>, test: seq<seq<int>>, itemnum: int)

  /** The valid boundary after the tie bump. */
  function BumpedValid(trainIndex: int, validIndex: int): int
  {
    if trainIndex == validIndex then validIndex + 1 else validIndex
  }

  /** `data_partition` on the parsed lines: keeps lines of at least 5 items,
      tracks itemnum, then cuts the shuffled positions at the train and
      (tie-bumped) valid boundaries and gathers the lines at each piece.
      With no usable line the average-length print divides by zero. */
  method DataPartition(lines: seq<seq<int>>, perm: seq<int>, trainIndex: int, validIndex: int)
    returns (r: Result<Partition>)
    requires IsPermutation(perm, |KeptLines(lines)|)
    ensures KeptLines(lines) == [] <==> r == Err(ZeroDivisionError)
    ensures r.Ok? ==>
      var kept := KeptLines(lines);
      var v := BumpedValid(trainIndex, validIndex);
      && (forall k :: 0 <= k < |kept| ==> kept[k] != [])
      && r.value == Partition(Gather(kept, SliceTo(perm, trainIndex)), Gather(kept, Slice(perm, trainIndex, v)),
                              Gather(kept, SliceFrom(perm, v)), ItemNum(kept))
  {
    var itemnum := 0;
    var sessions: seq<seq<int>> := [];
    var sessionId := 0;
    var totalLength := 0;
    for k := 0 to |lines|
      invariant sessions == KeptLines(lines[..k])
      invariant sessionId == |sessions|
      invariant forall m :: 0 <= m < |sessions| ==> |sessions[m]| >= 5
      invariant itemnum == ItemNum(sessions)
    {
      KeptSnoc(lines, k);
      var items := lines[k];
      if |items| < 5 {
        continue;
      }
      totalLength := totalLength + |items|;
      itemnum := Max(MaxOf(items), itemnum);
      assert (sessions + [items])[..|sessions|] == sessions;
      sessions := sessions + [items];
      sessionId := sessionId + 1;
    }
    assert lines[..|lines|] == lines;
    if sessionId == 0 {
      return Err(ZeroDivisionError);
    }
    var v := BumpedValid(trainIndex, validIndex);
    var trainIndices := SliceTo(perm, trainIndex);
    var validIndices := Slice(perm, trainIndex, v);
    var testIndices := SliceFrom(perm, v);
    PiecesInRange(perm, |sessions|, 0, trainIndex);
    PiecesInRange(perm, |sessions|, trainIndex, v);
    PiecesInRange(perm, |sessions|, v, |perm|);
    r := Ok(Partition(Gather(sessions, trainIndices), Gather(sessions, validIndices), Gather(sessions, testIndices), itemnum));
  }

  lemma PiecesInRange(perm: seq<int>, n: nat, i: int, j: int)
    requires IsPermutation(perm, n)
    ensures forall k :: 0 <= k < |Slice(perm, i, j)| ==> 0 <= Slice(perm, i, j)[k] < n
  {
    var s := Slice(perm, i, j);
    forall k | 0 <= k < |s| ensures 0 <= s[k] < n {
      assert s[k] == perm[Clamp(i, n) + k];
    }
  }

  /** For boundaries 0 <= a <= b, the three pieces `perm[:a]`, `perm[a:b]`
      and `perm[b:]` are contiguous: put back together they are the whole
      permutation. Each position 0 .. n - 1 lands in one of them and in no
      other. */
  lemma IndexPiecesPartition(perm: seq<int>, n: nat, a: int, b: int, x: int)
    requires IsPermutation(perm, n)
    requires 0 <= a <= b
    ensures SliceTo(perm, a) + Slice(perm, a, b) + SliceFrom(perm, b) == perm
    ensures x in SliceTo(perm, a) ==> x !in Slice(perm, a, b) && x !in SliceFrom(perm, b)
    ensures x in Slice(perm, a, b) ==> x !in SliceFrom(perm, b)
    ensures 0 <= x < n ==> x in SliceTo(perm, a) || x in Slice(perm, a, b) || x in SliceFrom(perm, b)
  {
    var a' := Min(a, n);
    var b' := Min(b, n);
    PiecesConcat(perm, a, b);
    if x in perm[..a'] {
      var i :| 0 <= i < a' && perm[i] == x;
      NotAfter(perm, n, i, a', x);
    }
    if x in perm[a'..b'] {
      var i :| a' <= i < b' && perm[i] == x;
      NotAfter(perm, n, i, b', x);
    }
    if 0 <= x < n {
      assert x in perm;
      assert x in perm[..a'] + perm[a'..b'] + perm[b'..];
    }
  }

  lemma PiecesConcat(perm: seq<int>, a: int, b: int)
    requires 0 <= a <= b
    ensures SliceTo(perm, a) == perm[..Min(a, |perm|)]
    ensures Slice(perm, a, b) == perm[Min(a, |perm|)..Min(b, |perm|)]
    ensures SliceFrom(perm, b) == perm[Min(b, |perm|)..]
    ensures SliceTo(perm, a) + Slice(perm, a, b) + SliceFrom(perm, b) == perm
  {
    assert perm[..Min(a, |perm|)] + perm[Min(a, |perm|)..Min(b, |perm|)] + perm[Min(b, |perm|)..] == perm;
  }

  /** A value at position i of a permutation occurs nowhere from c on, c > i. */
  lemma NotAfter(perm: seq<int>, n: nat, i: nat, c: nat, x: int)
    requires IsPermutation(perm, n)
    requires i < c <= n && perm[i] == x
    ensures x !in perm[c..]
  {
  }

  // ---------------------------------------------------------------------
  // gru_format

  /** A (SessionId, ItemId, Time) row of the GRU4Rec frames. */
  datatype GruRow = GruRow(sessionId: int, itemId: int, time: int)

  /** One row per item of each session, the sessions numbered from start. */
  function GruRows(sessions: seq<seq<int>>, start: int): seq<GruRow>
  {
    if sessions == [] then []
    else
      var last := sessions[|sessions| - 1];
      GruRows(sessions[..|sessions| - 1], start) +
        seq(|last|, k requires 0 <= k < |last| => GruRow(start + |sessions| - 1, last[k], 0))
  }

  function ItemCount(sessions: seq<seq<int>>): nat
  {
    if sessions == [] then 0 else ItemCount(sessions[..|sessions| - 1]) + |sessions[|sessions| - 1]|
  }

  /** ItemCount over a prefix of the sessions leaves room for the next one. */
  lemma {:induction false} ItemCountPrefix(sessions: seq<seq<int>>, i: nat)
    requires i < |sessions|
    ensures ItemCount(sessions[..i]) + |sessions[i]| <= ItemCount(sessions)
    decreases |sessions|
  {
    var n := |sessions|;
    if i < n - 1 {
      ItemCountPrefix(sessions[..n - 1], i);
      assert sessions[..n - 1][..i] == sessions[..i];
    } else {
      assert sessions[..i] == sessions[..n - 1];
    }
  }

  /** The row of item k of session i: `GruRow(start + i, item, 0)`, placed
      after the rows of the sessions before i. */
  lemma {:induction false} GruRowAt(sessions: seq<seq<int>>, start: int, i: nat, k: nat)
    requires i < |sessions| && k < |sessions[i]|
    ensures ItemCount(sessions[..i]) + k < |GruRows(sessions, start)|
    ensures GruRows(sessions, start)[ItemCount(sessions[..i]) + k] == GruRow(start + i, sessions[i][k], 0)
    decreases |sessions|
  {
    var n := |sessions|;
    var init := sessions[..n - 1];
    GruRowsLength(init, start);
    ItemCountPrefix(sessions, i);
    if i < n - 1 {
      GruRowAt(init, start, i, k);
      assert init[..i] == sessions[..i];
    } else {
      assert sessions[..i] == init;
    }
  }

  lemma {:induction false} GruRowsLength(sessions: seq<seq<int>>, start: int)
    ensures |GruRows(sessions, start)| == ItemCount(sessions)
  {
    if sessions != [] {
      GruRowsLength(sessions[..|sessions| - 1], start);
    }
  }

  /** There is one row per item; the rows of session i come as one block
      in the order of its items, each `GruRow(start + i, item, 0)`, after
      the rows of the sessions before it; the ids never decrease. */
  lemma {:induction false} GruRowsSpec(sessions: seq<seq<int>>, start: int)
    ensures |GruRows(sessions, start)| == ItemCount(sessions)
    ensures forall i :: 0 <= i < |sessions| ==> ItemCount(sessions[..i]) + |sessions[i]| <= ItemCount(sessions)
    ensures forall i, k :: 0 <= i < |sessions| && 0 <= k < |sessions[i]| ==>
      GruRows(sessions, start)[ItemCount(sessions[..i]) + k] == GruRow(start + i, sessions[i][k], 0)
    ensures forall k :: 0 <= k < |GruRows(sessions, start)| ==>
      start <= GruRows(sessions, start)[k].sessionId < start + |sessions| && GruRows(sessions, start)[k].time == 0
    ensures forall k, l :: 0 <= k < l < |GruRows(sessions, start)| ==>
      GruRows(sessions, start)[k].sessionId <= GruRows(sessions, start)[l].sessionId
  {
    GruRowsLength(sessions, start);
    forall i | 0 <= i < |sessions| ensures ItemCount(sessions[..i]) + |sessions[i]| <= ItemCount(sessions) {
      ItemCountPrefix(sessions, i);
    }
    forall i, k | 0 <= i < |sessions| && 0 <= k < |sessions[i]|
      ensures GruRows(sessions, start)[ItemCount(sessions[..i]) + k] == GruRow(start + i, sessions[i][k], 0)
    {
      GruRowAt(sessions, start, i, k);
    }
    GruRowsOrder(sessions, start);
  }

  /** The ids lie in [start, start + |sessions|), never decrease, and every time is 0. */
  lemma {:induction false} GruRowsOrder(sessions: seq<seq<int>>, start: int)
    ensures forall k :: 0 <= k < |GruRows(sessions, start)| ==>
      start <= GruRows(sessions, start)[k].sessionId < start + |sessions| && GruRows(sessions, start)[k].time == 0
    ensures forall k, l :: 0 <= k < l < |GruRows(sessions, start)| ==>
      GruRows(sessions, start)[k].sessionId <= GruRows(sessions, start)[l].sessionId
  {
    if sessions != [] {
      var n := |sessions|;
      GruRowsOrder(sessions[..n - 1], start);
      var ri := GruRows(sessions[..n - 1], start);
      var r := GruRows(sessions, start);
      forall k | 0 <= k < |r| ensures start <= r[k].sessionId < start + n && r[k].time == 0 {
        if k < |ri| {
          assert r[k] == ri[k];
        }
      }
      forall k, l | 0 <= k < l < |r| ensures r[k].sessionId <= r[l].sessionId {
        if l < |ri| {
          assert r[k] == ri[k] && r[l] == ri[l];
        } else if k < |ri| {
          assert r[k] == ri[k];
        }
      }
    }
  }

  /** The loop over one split's sessions, continuing the session counter. */
  method EmitRows(sessions: seq<seq<int>>, start: int) returns (rows: seq<GruRow>, next: int)
    ensures rows == GruRows(sessions, start)
    ensures next == start + |sessions|
  {
    rows, next := [], start;
    for s := 0 to |sessions|
      invariant rows == GruRows(sessions[..s], start)
      invariant next == start + s
    {
      var session := sessions[s];
      ghost var before := rows;
      for k := 0 to |session|
        invariant rows == before + seq(k, m requires 0 <= m < k => GruRow(next, session[m], 0))
      {
        rows := rows + [GruRow(next, session[k], 0)];
      }
      assert sessions[..s + 1][..s] == sessions[..s];
      next := next + 1;
    }
    assert sessions[..|sessions|] == sessions;
  }

  /** `gru_format`: the train, valid and test frames, with session ids
      running on from one split to the next. */
  method GruFormat(userTrain: seq<seq<int>>, userValid: seq<seq<int>>, userTest: seq<seq<int>>)
    returns (train: seq<GruRow>, valid: seq<GruRow>, test: seq<GruRow>)
    ensures train == GruRows(userTrain, 0)
    ensures valid == GruRows(userValid, |userTrain|)
    ensures test == GruRows(userTest, |userTrain| + |userValid|)
  {
    var sessionId;
    train, sessionId := EmitRows(userTrain, 0);
    valid, sessionId := EmitRows(userValid, sessionId);
    test, sessionId := EmitRows(userTest, sessionId);
  }

  /** The three frames number the sessions 0, 1, ... consecutively: train
      ids lie below valid ids, valid ids below test ids, and the frames
      together have one row per item. */
  lemma GruFormatConsecutive(userTrain: seq<seq<int>>, userValid: seq<seq<int>>, userTest: seq<seq<int>>)
    ensures var t := GruRows(userTrain, 0);
      var v := GruRows(userValid, |userTrain|);
      var s := GruRows(userTest, |userTrain| + |userValid|);
      && (forall k :: 0 <= k < |t| ==> 0 <= t[k].sessionId < |userTrain|)
      && (forall k :: 0 <= k < |v| ==> |userTrain| <= v[k].sessionId < |userTrain| + |userValid|)
      && (forall k :: 0 <= k < |s| ==> |userTrain| + |userValid| <= s[k].sessionId < |userTrain| + |userValid| + |userTest|)
      && |t| + |v| + |s| == ItemCount(userTrain) + ItemCount(userValid) + ItemCount(userTest)
  {
    GruRowsSpec(userTrain, 0);
    GruRowsSpec(userValid, |userTrain|);
    GruRowsSpec(userTest, |userTrain| + |userValid|);
  }
}
