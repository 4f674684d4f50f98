/** The RetailRocket session-log preprocessing pipeline: load and sessionize
    the event log, apply the support filter, optionally drop old sessions,
    and split the sessions into train / validation / test sets by one of
    the temporal rules (trailing day, last N days, sliding-window slices). */
module RetailRocket {
  import opened Py
  import opened Seqs

  /** One day in seconds: `timedelta(days)` moves a timestamp by days * Day. */
  const Day: int := 86400

  /** A line of events.csv: timestamp in milliseconds, visitor, event type, item. */
  datatype RawEvent = RawEvent(timeMs: int, user: int, kind: string, item: int)

  /** A loaded event: timestamp in seconds, and the session it was put in. */
  datatype Event = Event(time: int, user: int, kind: string, item: int, session: int)

  /** A view event as kept in `data`, with the columns Time, UserId, ItemId, SessionId. */
  datatype Row = Row(time: int, user: int, item: int, session: int)

  /** A (train, test) pair of row selections. */
  datatype Split = Split(train: seq<Row>, test: seq<Row>)

  /** The trailing-day split (train_full, test) and its nested (train_tr, valid) split. */
  datatype OrgSplit = OrgSplit(full: Split, validation: Split)

  /** One sliding-window slice with its window bounds in seconds. */
  datatype Slice = Slice(id: int, start: int, middle: int, end: int, split: Split)

  /** The split outputs of one run of the pipeline, by processing method. */
  datatype Splits = LastDay(org: OrgSplit) | LastDays(days: Split) | Slices(slices: seq<Slice>) | NoSplit

  /** Everything a run writes: the split files and the add-to-cart events. */
  datatype Outputs = Outputs(splits: Splits, buys: seq<Event>)

  // ---------------------------------------------------------------------------
  // Loading and sessionization

  /** `(Time / 1000).astype(int)`: the quotient truncated toward zero. */
  function ToSeconds(ms: int): int
  {
    if ms >= 0 then ms / 1000 else -((-ms) / 1000)
  }

  function UserTimeKey(e: Event): (int, int) { (e.user, e.time) }

  function SessionTimeKey(e: Event): (int, int) { (e.session, e.time) }

  function RowKey(r: Row): (int, int) { (r.session, r.time) }

  /** 1 when row i starts a new session: the absolute gap to the previous
      row (whichever user it belongs to) exceeds the session length. The
      first row has no previous row (its gap is NaN), so it gives 0. */
  function NewSession(t: seq<int>, gap: int, i: nat): nat
    requires i < |t|
  {
    if i > 0 && Abs(t[i] - t[i - 1]) > gap then 1 else 0
  }

  /** The running sum of NewSession over rows 0..i: `SessionIdTmp.cumsum()`. */
  function Breaks(t: seq<int>, gap: int, i: nat): nat
    requires i < |t|
  {
    if i == 0 then 0 else Breaks(t, gap, i - 1) + NewSession(t, gap, i)
  }

  /** The session id of every row, given the timestamps in (UserId, Time) order. */
  function SessionIds(t: seq<int>, gap: int): (ids: seq<int>)
    ensures |ids| == |t|
  {
    seq(|t|, i requires 0 <= i < |t| => Breaks(t, gap, i))
  }

  /** Session ids start at 0 and go up by exactly one where the gap to the
      previous row exceeds the session length, by zero elsewhere. */
  lemma SessionIdsStep(t: seq<int>, gap: int)
    ensures |t| > 0 ==> SessionIds(t, gap)[0] == 0
    ensures forall i :: 0 < i < |t| ==>
      SessionIds(t, gap)[i] == SessionIds(t, gap)[i - 1] + (if Abs(t[i] - t[i - 1]) > gap then 1 else 0)
  {
  }

  /** Two rows are in the same session exactly when no gap between them
      exceeds the session length: sessions are contiguous runs. */
  lemma {:induction false} SameSessionIff(t: seq<int>, gap: int, i: nat, j: nat)
    requires i <= j < |t|
    ensures SessionIds(t, gap)[i] == SessionIds(t, gap)[j] <==>
      forall k :: i < k <= j ==> Abs(t[k] - t[k - 1]) <= gap
    ensures SessionIds(t, gap)[i] <= SessionIds(t, gap)[j]
    decreases j - i
  {
    if i < j {
      SameSessionIff(t, gap, i, j - 1);
      assert Breaks(t, gap, j) == Breaks(t, gap, j - 1) + NewSession(t, gap, j);
      if Abs(t[j] - t[j - 1]) > gap {
        assert !(forall k :: i < k <= j ==> Abs(t[k] - t[k - 1]) <= gap) by {
          assert i < j <= j;
        }
      }
    }
  }

  /** Timestamps 0, 100, 2000, 2100, 2200 with an 1800-second gap give two
      sessions of 2 and 3 rows. */
  lemma SessionExample()
    ensures SessionIds([0, 100, 2000, 2100, 2200], 1800) == [0, 0, 1, 1, 1]
  {
    var t := [0, 100, 2000, 2100, 2200];
    assert Breaks(t, 1800, 1) == 0;
    assert Breaks(t, 1800, 2) == 1;
    assert Breaks(t, 1800, 3) == 1;
    assert Breaks(t, 1800, 4) == 1;
  }

  function Times(es: seq<Event>): (t: seq<int>)
    ensures |t| == |es| && forall i :: 0 <= i < |es| ==> t[i] == es[i].time
  {
    seq(|es|, i requires 0 <= i < |es| => es[i].time)
  }

  /** Gives each event of the (UserId, Time)-ordered log its session id. No
      user argument: a change of user does not by itself start a session. */
  function Sessionize(sorted: seq<Event>, gap: int): (r: seq<Event>)
    ensures |r| == |sorted|
    ensures forall i :: 0 <= i < |r| ==>
      r[i] == sorted[i].(session := SessionIds(Times(sorted), gap)[i])
  {
    var ids := SessionIds(Times(sorted), gap);
    seq(|sorted|, i requires 0 <= i < |sorted| => sorted[i].(session := ids[i]))
  }

  function Converted(raw: seq<RawEvent>): (r: seq<Event>)
    ensures |r| == |raw|
  {
    seq(|raw|, i requires 0 <= i < |raw| =>
      Event(ToSeconds(raw[i].timeMs), raw[i].user, raw[i].kind, raw[i].item, 0))
  }

  /** All loaded events: converted to seconds, sorted by (UserId, Time),
      sessionized, then sorted by (SessionId, Time). (The source sorts by
      (UserId, Time) twice; the model sorts once, as a second sort by the
      same key leaves the events sorted by it.) */
  function LoadEvents(raw: seq<RawEvent>, gap: int): seq<Event>
  {
    SortBy(Sessionize(SortBy(Converted(raw), UserTimeKey), gap), SessionTimeKey)
  }

  predicate IsView(e: Event) { e.kind == "view" }

  predicate IsCart(e: Event) { e.kind == "addtocart" }

  function ToRow(e: Event): Row { Row(e.time, e.user, e.item, e.session) }

  /** The view events as `data` rows, in their order; other types are dropped. */
  function Views(events: seq<Event>): (rows: seq<Row>)
    ensures |rows| == |Filter(events, IsView)|
  {
    var v := Filter(events, IsView);
    seq(|v|, i requires 0 <= i < |v| => ToRow(v[i]))
  }

  /** The add-to-cart events, kept aside for `events_buys.txt`. */
  function Carts(events: seq<Event>): seq<Event>
  {
    Filter(events, IsCart)
  }

  /** What load produces: every event keeps its fields, the view rows are
      ordered by (SessionId, Time), and each session id is the one the
      gap rule gives in the (UserId, Time) order. */
  lemma LoadEventsSpec(raw: seq<RawEvent>, gap: int)
    ensures var sorted := SortBy(Converted(raw), UserTimeKey);
      && multiset(LoadEvents(raw, gap)) == multiset(Sessionize(sorted, gap))
      && SortedBy(sorted, UserTimeKey)
      && multiset(sorted) == multiset(Converted(raw))
    ensures SortedBy(LoadEvents(raw, gap), SessionTimeKey)
    ensures SortedBy(Views(LoadEvents(raw, gap)), RowKey)
    ensures SortedBy(Carts(LoadEvents(raw, gap)), SessionTimeKey)
    ensures forall e :: e in Carts(LoadEvents(raw, gap)) <==> e in LoadEvents(raw, gap) && e.kind == "addtocart"
    ensures forall e :: e in LoadEvents(raw, gap) && e.kind == "view" ==> ToRow(e) in Views(LoadEvents(raw, gap))
  {
    var events := LoadEvents(raw, gap);
    ViewsSorted(events);
    FilterSorted(events, IsCart, SessionTimeKey);
    forall e ensures e in Carts(events) <==> e in events && e.kind == "addtocart" {
      FilterMem(events, IsCart, e);
    }
    forall e | e in events && e.kind == "view" ensures ToRow(e) in Views(events) {
      ViewsHas(events, e);
    }
  }

  lemma ViewsHas(events: seq<Event>, e: Event)
    requires e in events && IsView(e)
    ensures ToRow(e) in Views(events)
  {
    var v := Filter(events, IsView);
    FilterMem(events, IsView, e);
    var j :| 0 <= j < |v| && v[j] == e;
    assert Views(events)[j] == ToRow(e);
  }

  lemma ViewsSorted(events: seq<Event>)
    requires SortedBy(events, SessionTimeKey)
    ensures SortedBy(Views(events), RowKey)
  {
    FilterSorted(events, IsView, SessionTimeKey);
  }

  // ---------------------------------------------------------------------------
  // Per-session and per-item statistics

  /** `groupby('SessionId').size()` at session s. */
  function SessionSize(rows: seq<Row>, s: int): nat
  {
    if rows == [] then 0 else (if rows[0].session == s then 1 else 0) + SessionSize(rows[1..], s)
  }

  /** `groupby('ItemId').size()` at item i. */
  function ItemSupport(rows: seq<Row>, i: int): nat
  {
    if rows == [] then 0 else (if rows[0].item == i then 1 else 0) + ItemSupport(rows[1..], i)
  }

  function SessionsOf(rows: seq<Row>): set<int>
  {
    set r | r in rows :: r.session
  }

  function ItemsOf(rows: seq<Row>): set<int>
  {
    set r | r in rows :: r.item
  }

  /** `groupby('SessionId').Time.max()`: the latest timestamp of every session. */
  function MaxTimes(rows: seq<Row>): (m: map<int, int>)
    ensures forall r :: r in rows ==> r.session in m
  {
    if rows == [] then map[]
    else
      var m := MaxTimes(rows[1..]);
      var r := rows[0];
      assert rows == [r] + rows[1..];
      m[r.session := if r.session in m && m[r.session] > r.time then m[r.session] else r.time]
  }

  /** Every session of rows has an entry, no other session has one, and the
      entry is the largest timestamp among the session's rows. */
  lemma {:induction false} MaxTimesSpec(rows: seq<Row>)
    ensures MaxTimes(rows).Keys == SessionsOf(rows)
    ensures forall r :: r in rows ==> r.time <= MaxTimes(rows)[r.session]
    ensures forall s :: s in MaxTimes(rows) ==> exists r :: r in rows && r.session == s && r.time == MaxTimes(rows)[s]
  {
    if rows != [] {
      MaxTimesSpec(rows[1..]);
      assert rows == [rows[0]] + rows[1..];
    }
  }

  /** `data.Time.max()` of a non-empty selection. */
  function MaxTime(rows: seq<Row>): (t: int)
    requires rows != []
    ensures forall r :: r in rows ==> r.time <= t
    ensures exists r :: r in rows && r.time == t
  {
    if |rows| == 1 then rows[0].time
    else
      var t := MaxTime(rows[1..]);
      assert rows == [rows[0]] + rows[1..];
      if rows[0].time > t then rows[0].time else t
  }

  /** `data.Time.min()` of a non-empty selection. */
  function MinTime(rows: seq<Row>): (t: int)
    requires rows != []
    ensures forall r :: r in rows ==> t <= r.time
  {
    if |rows| == 1 then rows[0].time
    else
      var t := MinTime(rows[1..]);
      assert rows == [rows[0]] + rows[1..];
      if rows[0].time < t then rows[0].time else t
  }

  /** The earliest timestamp is one of the rows' timestamps. */
  lemma {:induction false} MinTimeAttained(rows: seq<Row>)
    requires rows != []
    ensures exists r :: r in rows && r.time == MinTime(rows)
  {
    if |rows| == 1 {
      assert rows[0] in rows;
    } else {
      MinTimeAttained(rows[1..]);
      var r :| r in rows[1..] && r.time == MinTime(rows[1..]);
      assert rows == [rows[0]] + rows[1..];
      if rows[0].time < r.time {
        assert rows[0] in rows && rows[0].time == MinTime(rows);
      } else {
        assert r in rows && r.time == MinTime(rows);
      }
    }
  }

  /** `data[np.in1d(data.SessionId, keep)]`: the rows of the kept sessions, in order. */
  function KeepSessions(rows: seq<Row>, keep: set<int>): seq<Row>
  {
    Filter(rows, (r: Row) => r.session in keep)
  }

  /** `data[np.in1d(data.ItemId, keep)]`: the rows of the kept items, in order. */
  function KeepItems(rows: seq<Row>, keep: set<int>): seq<Row>
  {
    Filter(rows, (r: Row) => r.item in keep)
  }

  lemma KeepSessionsSpec(rows: seq<Row>, keep: set<int>)
    ensures forall r :: r in KeepSessions(rows, keep) <==> r in rows && r.session in keep
    ensures IsSubseq(KeepSessions(rows, keep), rows)
    ensures SortedBy(rows, RowKey) ==> SortedBy(KeepSessions(rows, keep), RowKey)
  {
    forall r ensures r in KeepSessions(rows, keep) <==> r in rows && r.session in keep {
      FilterMem(rows, (x: Row) => x.session in keep, r);
    }
    FilterIsSubseq(rows, (x: Row) => x.session in keep);
    if SortedBy(rows, RowKey) {
      FilterSorted(rows, (x: Row) => x.session in keep, RowKey);
    }
  }

  lemma KeepItemsSpec(rows: seq<Row>, keep: set<int>)
    ensures forall r :: r in KeepItems(rows, keep) <==> r in rows && r.item in keep
    ensures IsSubseq(KeepItems(rows, keep), rows)
    ensures SortedBy(rows, RowKey) ==> SortedBy(KeepItems(rows, keep), RowKey)
  {
    forall r ensures r in KeepItems(rows, keep) <==> r in rows && r.item in keep {
      FilterMem(rows, (x: Row) => x.item in keep, r);
    }
    FilterIsSubseq(rows, (x: Row) => x.item in keep);
    if SortedBy(rows, RowKey) {
      FilterSorted(rows, (x: Row) => x.item in keep, RowKey);
    }
  }

  /** Whole sessions are kept or dropped, so a kept session keeps its size. */
  lemma {:induction false} KeepSessionsSize(rows: seq<Row>, keep: set<int>, s: int)
    ensures SessionSize(KeepSessions(rows, keep), s) == if s in keep then SessionSize(rows, s) else 0
  {
    if rows != [] {
      KeepSessionsSize(rows[1..], keep, s);
    }
  }

  /** ... and its latest timestamp, and no other session appears. */
  lemma {:induction false} KeepSessionsMax(rows: seq<Row>, keep: set<int>)
    ensures forall s :: s in MaxTimes(KeepSessions(rows, keep)) <==> s in MaxTimes(rows) && s in keep
    ensures forall s :: s in MaxTimes(KeepSessions(rows, keep)) ==>
      MaxTimes(KeepSessions(rows, keep))[s] == MaxTimes(rows)[s]
  {
    if rows != [] {
      KeepSessionsMax(rows[1..], keep);
    }
  }

  /** Two selections that split the sessions of rows split its rows. */
  lemma {:induction false} KeepSessionsPartition(rows: seq<Row>, a: set<int>, b: set<int>)
    requires forall r :: r in rows ==> (r.session in a <==> r.session !in b)
    ensures multiset(KeepSessions(rows, a)) + multiset(KeepSessions(rows, b)) == multiset(rows)
  {
    if rows != [] {
      assert rows == [rows[0]] + rows[1..];
      KeepSessionsPartition(rows[1..], a, b);
    }
  }

  /** The sessions with at least min rows. */
  function SessionsOfSize(rows: seq<Row>, min: int): set<int>
  {
    set s | s in SessionsOf(rows) && SessionSize(rows, s) >= min
  }

  /** The items with at least min rows. */
  function ItemsOfSupport(rows: seq<Row>, min: int): set<int>
  {
    set i | i in ItemsOf(rows) && ItemSupport(rows, i) >= min
  }

  /** The sessions of m that end before cut. */
  function EndBefore(m: map<int, int>, cut: int): set<int>
  {
    set s | s in m && m[s] < cut
  }

  /** The sessions of m that end at or after cut. */
  function EndFrom(m: map<int, int>, cut: int): set<int>
  {
    set s | s in m && m[s] >= cut
  }

  // ---------------------------------------------------------------------------
  // The support filter: exactly three passes

  /** Pass 1: drop sessions of one row (the hard-coded `session_lengths > 1`). */
  function DropSingletons(rows: seq<Row>): seq<Row>
  {
    KeepSessions(rows, SessionsOfSize(rows, 2))
  }

  /** Pass 2: drop the rows of items with fewer than minItemSupport rows. */
  function DropRareItems(rows: seq<Row>, minItemSupport: int): seq<Row>
  {
    KeepItems(rows, ItemsOfSupport(rows, minItemSupport))
  }

  /** Pass 3: drop sessions with fewer than minSessionLength rows. */
  function DropShortSessions(rows: seq<Row>, minSessionLength: int): seq<Row>
  {
    KeepSessions(rows, SessionsOfSize(rows, minSessionLength))
  }

  /** `filter_data`: the three passes, once each, in this order. */
  function SupportFiltered(rows: seq<Row>, minItemSupport: int, minSessionLength: int): seq<Row>
  {
    DropShortSessions(DropRareItems(DropSingletons(rows), minItemSupport), minSessionLength)
  }

  lemma DropSingletonsSpec(rows: seq<Row>)
    ensures forall r :: r in DropSingletons(rows) <==> r in rows && SessionSize(rows, r.session) > 1
    ensures IsSubseq(DropSingletons(rows), rows)
    ensures SortedBy(rows, RowKey) ==> SortedBy(DropSingletons(rows), RowKey)
  {
    KeepSessionsSpec(rows, SessionsOfSize(rows, 2));
  }

  lemma DropRareItemsSpec(rows: seq<Row>, minItemSupport: int)
    ensures forall r :: r in DropRareItems(rows, minItemSupport) <==> r in rows && ItemSupport(rows, r.item) >= minItemSupport
    ensures IsSubseq(DropRareItems(rows, minItemSupport), rows)
    ensures SortedBy(rows, RowKey) ==> SortedBy(DropRareItems(rows, minItemSupport), RowKey)
  {
    KeepItemsSpec(rows, ItemsOfSupport(rows, minItemSupport));
  }

  lemma DropShortSessionsSpec(rows: seq<Row>, minSessionLength: int)
    ensures forall r :: r in DropShortSessions(rows, minSessionLength) <==>
      r in rows && SessionSize(rows, r.session) >= minSessionLength
    ensures forall r :: r in DropShortSessions(rows, minSessionLength) ==>
      SessionSize(DropShortSessions(rows, minSessionLength), r.session) >= minSessionLength
    ensures IsSubseq(DropShortSessions(rows, minSessionLength), rows)
    ensures SortedBy(rows, RowKey) ==> SortedBy(DropShortSessions(rows, minSessionLength), RowKey)
  {
    var keep := SessionsOfSize(rows, minSessionLength);
    KeepSessionsSpec(rows, keep);
    forall r | r in KeepSessions(rows, keep) ensures SessionSize(KeepSessions(rows, keep), r.session) >= minSessionLength {
      KeepSessionsSize(rows, keep, r.session);
    }
  }

  /** The filtered rows are a subsequence of the input in which every
      session has at least minSessionLength rows; each pass keeps exactly
      the rows its own statistics allow. */
  lemma SupportFilteredSpec(rows: seq<Row>, minItemSupport: int, minSessionLength: int)
    ensures IsSubseq(SupportFiltered(rows, minItemSupport, minSessionLength), rows)
    ensures SortedBy(rows, RowKey) ==> SortedBy(SupportFiltered(rows, minItemSupport, minSessionLength), RowKey)
    ensures forall r :: r in SupportFiltered(rows, minItemSupport, minSessionLength) ==>
      SessionSize(SupportFiltered(rows, minItemSupport, minSessionLength), r.session) >= minSessionLength
    ensures forall r :: r in SupportFiltered(rows, minItemSupport, minSessionLength) ==>
      && SessionSize(rows, r.session) > 1
      && ItemSupport(DropSingletons(rows), r.item) >= minItemSupport
  {
    var p1 := DropSingletons(rows);
    var p2 := DropRareItems(p1, minItemSupport);
    DropSingletonsSpec(rows);
    DropRareItemsSpec(p1, minItemSupport);
    DropShortSessionsSpec(p2, minSessionLength);
    SubseqTransitive(p2, p1, rows);
    SubseqTransitive(SupportFiltered(rows, minItemSupport, minSessionLength), p2, rows);
  }

  /** Two sessions, [A, B, B] and [A, C], of items A = 1, B = 2, C = 3. */
  const ExampleRows: seq<Row> := [Row(0, 7, 1, 0), Row(1, 7, 2, 0), Row(2, 7, 2, 0), Row(10, 8, 1, 1), Row(11, 8, 3, 1)]

  lemma ExamplePass1()
    ensures DropSingletons(ExampleRows) == ExampleRows
  {
    var rows := ExampleRows;
    assert rows[0] in rows && rows[3] in rows;
    assert SessionSize(rows, 0) == 3 && SessionSize(rows, 1) == 2;
    FilterAll(rows, (r: Row) => r.session in SessionsOfSize(rows, 2));
  }

  lemma ExamplePass2()
    ensures DropRareItems(ExampleRows, 2) == ExampleRows[..4]
  {
    var rows := ExampleRows;
    assert rows[0] in rows && rows[1] in rows;
    assert ItemSupport(rows, 1) == 2 && ItemSupport(rows, 2) == 2 && ItemSupport(rows, 3) == 1;
    var keep := ItemsOfSupport(rows, 2);
    assert 1 in keep && 2 in keep && 3 !in keep;
    var f := (r: Row) => r.item in keep;
    assert Filter(rows[4..], f) == [];
    assert Filter(rows[3..], f) == rows[3..4];
    assert Filter(rows[2..], f) == rows[2..4];
    assert Filter(rows[1..], f) == rows[1..4];
  }

  lemma ExamplePass3()
    ensures DropShortSessions(ExampleRows[..4], 2) == ExampleRows[..3]
  {
    var rows := [Row(0, 7, 1, 0), Row(1, 7, 2, 0), Row(2, 7, 2, 0), Row(10, 8, 1, 1)];
    assert rows == ExampleRows[..4];
    assert rows[0] in rows;
    assert SessionSize(rows, 0) == 3 && SessionSize(rows, 1) == 1;
    var keep := SessionsOfSize(rows, 2);
    assert 0 in keep && 1 !in keep;
    var f := (r: Row) => r.session in keep;
    assert Filter(rows[3..], f) == [];
    assert Filter(rows[2..], f) == rows[2..3];
    assert Filter(rows[1..], f) == rows[1..3];
  }

  /** The filter is not a fixed point: after pass 3 an item that passed
      pass 2 (A, with two rows) can be left with less support than
      minItemSupport. */
  lemma SupportFilterNotFixedPoint()
    ensures SupportFiltered(ExampleRows, 2, 2) == ExampleRows[..3]
    ensures ItemSupport(DropSingletons(ExampleRows), 1) >= 2
    ensures ItemSupport(SupportFiltered(ExampleRows, 2, 2), 1) < 2
  {
    ExamplePass1();
    ExamplePass2();
    ExamplePass3();
    assert ItemSupport(ExampleRows, 1) == 2;
    assert ItemSupport(ExampleRows[..3], 1) == 1;
  }

  // ---------------------------------------------------------------------------
  // The minimum-date filter

  /** `filter_min_date`: the sessions whose latest timestamp is after minDate. */
  function AfterMinDate(rows: seq<Row>, minDate: int): seq<Row>
  {
    var m := MaxTimes(rows);
    KeepSessions(rows, set s | s in m && m[s] > minDate)
  }

  lemma AfterMinDateSpec(rows: seq<Row>, minDate: int)
    ensures IsSubseq(AfterMinDate(rows, minDate), rows)
    ensures SortedBy(rows, RowKey) ==> SortedBy(AfterMinDate(rows, minDate), RowKey)
    ensures forall r :: r in AfterMinDate(rows, minDate) <==>
      r in rows && MaxTimes(rows)[r.session] > minDate
  {
    var m := MaxTimes(rows);
    KeepSessionsSpec(rows, set s | s in m && m[s] > minDate);
  }

  // ---------------------------------------------------------------------------
  // Splitting by a cut-off time, and cleaning the test side

  /** Sessions whose latest timestamp is before cut go to train, the rest to test. */
  function SplitAt(rows: seq<Row>, cut: int): Split
  {
    var m := MaxTimes(rows);
    Split(KeepSessions(rows, EndBefore(m, cut)), KeepSessions(rows, EndFrom(m, cut)))
  }

  /** Drops test rows of items absent from train, then test sessions left
      with fewer than two rows. */
  function CleanTest(test: seq<Row>, train: seq<Row>): seq<Row>
  {
    var t1 := KeepItems(test, ItemsOf(train));
    KeepSessions(t1, SessionsOfSize(t1, 2))
  }

  /** The train rows are the sessions of trainSessions, the test rows those
      of testSessions cleaned against train. */
  function SplitBy(rows: seq<Row>, trainSessions: set<int>, testSessions: set<int>): Split
  {
    var train := KeepSessions(rows, trainSessions);
    Split(train, CleanTest(KeepSessions(rows, testSessions), train))
  }

  /** The cut-off split with the test side cleaned. */
  function CleanedSplit(rows: seq<Row>, cut: int): Split
  {
    var m := MaxTimes(rows);
    SplitBy(rows, EndBefore(m, cut), EndFrom(m, cut))
  }

  /** The cut-off rule: a session goes to train iff its latest timestamp is
      before cut; the two sides have no session in common and together hold
      every row. */
  lemma SplitAtSpec(rows: seq<Row>, cut: int)
    ensures var sp := SplitAt(rows, cut);
      && (forall r :: r in sp.train <==> r in rows && MaxTimes(rows)[r.session] < cut)
      && (forall r :: r in sp.test <==> r in rows && MaxTimes(rows)[r.session] >= cut)
      && SessionsOf(sp.train) !! SessionsOf(sp.test)
      && multiset(sp.train) + multiset(sp.test) == multiset(rows)
      && IsSubseq(sp.train, rows) && IsSubseq(sp.test, rows)
  {
    var m := MaxTimes(rows);
    KeepSessionsSpec(rows, EndBefore(m, cut));
    KeepSessionsSpec(rows, EndFrom(m, cut));
    KeepSessionsPartition(rows, EndBefore(m, cut), EndFrom(m, cut));
  }

  /** The test-cleaning rule for a row r of a test session of rows: its
      item occurs in train, and at least two rows of its session in rows
      have items that occur in train. */
  ghost predicate SurvivesCleaning(r: Row, rows: seq<Row>, train: seq<Row>)
  {
    r.item in ItemsOf(train) && SessionSize(KeepItems(rows, ItemsOf(train)), r.session) >= 2
  }

  /** Cleaning keeps a test row exactly when it survives the rule: after
      it every test item occurs in train and every test session has at
      least two rows. */
  lemma CleanTestSpec(test: seq<Row>, train: seq<Row>)
    ensures forall r :: r in CleanTest(test, train) <==> r in test && SurvivesCleaning(r, test, train)
    ensures forall r :: r in CleanTest(test, train) ==> SessionSize(CleanTest(test, train), r.session) >= 2
    ensures IsSubseq(CleanTest(test, train), test)
  {
    var t1 := KeepItems(test, ItemsOf(train));
    var out := CleanTest(test, train);
    KeepItemsSpec(test, ItemsOf(train));
    KeepSessionsSpec(t1, SessionsOfSize(t1, 2));
    forall r | r in out ensures SessionSize(out, r.session) >= 2 {
      KeepSessionsSize(t1, SessionsOfSize(t1, 2), r.session);
    }
    SubseqTransitive(out, t1, test);
  }

  /** Selecting sessions and then items counts, for a selected session, the
      same rows as selecting the items alone. */
  lemma {:induction false} KeepSessionsItemsSize(rows: seq<Row>, sessions: set<int>, items: set<int>, s: int)
    ensures SessionSize(KeepItems(KeepSessions(rows, sessions), items), s) ==
      if s in sessions then SessionSize(KeepItems(rows, items), s) else 0
  {
    if rows != [] {
      KeepSessionsItemsSize(rows[1..], sessions, items, s);
      var x := rows[0];
      var tail := KeepItems(KeepSessions(rows[1..], sessions), items);
      if x.session in sessions && x.item in items {
        assert KeepItems(KeepSessions(rows, sessions), items) == [x] + tail;
        assert ([x] + tail)[1..] == tail;
        assert KeepItems(rows, items) == [x] + KeepItems(rows[1..], items);
        assert ([x] + KeepItems(rows[1..], items))[1..] == KeepItems(rows[1..], items);
      } else if x.item in items {
        assert KeepItems(rows, items) == [x] + KeepItems(rows[1..], items);
        assert ([x] + KeepItems(rows[1..], items))[1..] == KeepItems(rows[1..], items);
      }
    }
  }

  /** The guarantees every cleaned split gives: train and test share no
      session, every test item occurs in train, every test session has at
      least two rows, and both sides are subsequences of the input. */
  ghost predicate CleanSplitOf(sp: Split, rows: seq<Row>)
  {
    && SessionsOf(sp.train) !! SessionsOf(sp.test)
    && ItemsOf(sp.test) <= ItemsOf(sp.train)
    && (forall r :: r in sp.test ==> SessionSize(sp.test, r.session) >= 2)
    && IsSubseq(sp.train, rows)
    && IsSubseq(sp.test, rows)
  }

  /** Train is exactly the rows of the train sessions; test is exactly the
      rows of the test sessions that survive cleaning against that train. */
  lemma SplitBySpec(rows: seq<Row>, trainSessions: set<int>, testSessions: set<int>)
    requires trainSessions !! testSessions
    ensures var sp := SplitBy(rows, trainSessions, testSessions);
      && CleanSplitOf(sp, rows)
      && (forall r :: r in sp.train <==> r in rows && r.session in trainSessions)
      && (forall r :: r in sp.test <==> r in rows && r.session in testSessions && SurvivesCleaning(r, rows, sp.train))
  {
    var train := KeepSessions(rows, trainSessions);
    var candidates := KeepSessions(rows, testSessions);
    var sp := SplitBy(rows, trainSessions, testSessions);
    KeepSessionsSpec(rows, trainSessions);
    KeepSessionsSpec(rows, testSessions);
    CleanTestSpec(candidates, train);
    SubseqTransitive(sp.test, candidates, rows);
    forall r ensures r in sp.test <==> r in rows && r.session in testSessions && SurvivesCleaning(r, rows, train) {
      KeepSessionsItemsSize(rows, testSessions, ItemsOf(train), r.session);
    }
    forall s | s in SessionsOf(sp.test) ensures s !in SessionsOf(sp.train) {
      var r :| r in sp.test && r.session == s;
      assert s in testSessions;
      assert forall q :: q in sp.train ==> q.session in trainSessions;
    }
    forall i | i in ItemsOf(sp.test) ensures i in ItemsOf(sp.train) {
      var r :| r in sp.test && r.item == i;
    }
  }

  /** sp is the cleaned split of rows at cut: train holds exactly the rows
      of the sessions ending before cut, test exactly the rows of the other
      sessions that survive cleaning against that train. */
  ghost predicate CutSplitOf(sp: Split, rows: seq<Row>, cut: int)
  {
    && CleanSplitOf(sp, rows)
    && (forall r :: r in sp.train <==> r in rows && MaxTimes(rows)[r.session] < cut)
    && (forall r :: r in sp.test <==> r in rows && MaxTimes(rows)[r.session] >= cut && SurvivesCleaning(r, rows, sp.train))
  }

  /** The cleaned split is the cut-off split with its test side cleaned. */
  lemma CleanedSplitIsSplitAt(rows: seq<Row>, cut: int)
    ensures var sp := SplitAt(rows, cut);
      CleanedSplit(rows, cut) == Split(sp.train, CleanTest(sp.test, sp.train))
  {
  }

  lemma CleanedSplitSpec(rows: seq<Row>, cut: int)
    ensures CutSplitOf(CleanedSplit(rows, cut), rows, cut)
  {
    var m := MaxTimes(rows);
    SplitBySpec(rows, EndBefore(m, cut), EndFrom(m, cut));
  }

  // ---------------------------------------------------------------------------
  // The three split rules

  /** `split_data_org`: test is the last day before the overall latest
      timestamp; the same rule, on train's own latest timestamp, splits
      train into train_tr and valid. On an empty selection the latest
      timestamp is NaN, every comparison is false and every side is empty. */
  function TrailingDaySplit(data: seq<Row>): OrgSplit
  {
    var full := TrailingDayCut(data);
    OrgSplit(full, TrailingDayCut(full.train))
  }

  /** One level of the trailing-day split: the cleaned split one day
      before the latest timestamp, both sides empty on empty rows. */
  function TrailingDayCut(rows: seq<Row>): Split
  {
    if rows == [] then Split([], []) else CleanedSplit(rows, MaxTime(rows) - Day)
  }

  /** sp is the cleaned split of rows at one day before its latest
      timestamp, and both sides are empty when rows is. */
  ghost predicate TrailingDayOf(sp: Split, rows: seq<Row>)
  {
    if rows == [] then sp == Split([], []) else CutSplitOf(sp, rows, MaxTime(rows) - Day)
  }

  lemma TrailingDayPart(rows: seq<Row>)
    ensures TrailingDayOf(TrailingDayCut(rows), rows)
  {
    if rows != [] {
      CleanedSplitSpec(rows, MaxTime(rows) - Day);
    }
  }

  /** Both levels of the trailing-day split are such splits: (train_full,
      test) of the data and (train_tr, valid) of train_full, each cut by its
      own latest timestamp. */
  lemma TrailingDaySplitSpec(data: seq<Row>)
    ensures TrailingDayOf(TrailingDaySplit(data).full, data)
    ensures TrailingDayOf(TrailingDaySplit(data).validation, TrailingDaySplit(data).full.train)
  {
    TrailingDayPart(data);
    TrailingDayPart(TrailingDayCut(data).train);
  }

  /** `split_data`: test is the last daysTest days. `datetime.fromtimestamp`
      of the NaN maximum of an empty selection raises ValueError. */
  function LastDaysSplit(data: seq<Row>, daysTest: int): Result<Split>
  {
    if data == [] then Err(ValueError) else Ok(CleanedSplit(data, MaxTime(data) - daysTest * Day))
  }

  lemma LastDaysSplitSpec(data: seq<Row>, daysTest: int)
    ensures LastDaysSplit(data, daysTest).Ok? <==> data != []
    ensures LastDaysSplit(data, daysTest).Ok? ==>
      CutSplitOf(LastDaysSplit(data, daysTest).value, data, MaxTime(data) - daysTest * Day)
  {
    if data != [] {
      var cut := MaxTime(data) - daysTest * Day;
      CleanedSplitSpec(data, cut);
      assert LastDaysSplit(data, daysTest) == Ok(CleanedSplit(data, cut));
    }
  }

  /** `split_data_slice`: the window starts daysOffset days after the
      earliest timestamp; train is the daysTrain days after the start and
      test the daysTest days after that, both among the sessions whose
      latest timestamp lies in [start, end]. The train and test rows are
      taken from the whole data by session id. */
  function WindowSlice(data: seq<Row>, sliceId: int, daysOffset: int, daysTrain: int, daysTest: int): Result<Slice>
  {
    if data == [] then Err(ValueError)
    else
      var start := MinTime(data) + daysOffset * Day;
      var middle := start + daysTrain * Day;
      var end := middle + daysTest * Day;
      var mf := MaxTimes(KeepSessions(data, Window(MaxTimes(data), start, end)));
      Ok(Slice(sliceId, start, middle, end, SplitBy(data, EndBefore(mf, middle), EndFrom(mf, middle))))
  }

  /** The sessions of m whose latest timestamp lies in [start, end]. */
  function Window(m: map<int, int>, start: int, end: int): set<int>
  {
    set s | s in m && start <= m[s] && m[s] <= end
  }

  /** Re-computing the latest timestamps on the window changes none of them,
      so session s is a train (test) session when it is in the window and
      ends before (at or after) middle. */
  lemma WindowSession(data: seq<Row>, start: int, middle: int, end: int, s: int)
    ensures var m := MaxTimes(data);
      var mf := MaxTimes(KeepSessions(data, Window(m, start, end)));
      && (s in EndBefore(mf, middle) <==> s in m && start <= m[s] < middle && m[s] <= end)
      && (s in EndFrom(mf, middle) <==> s in m && middle <= m[s] <= end && start <= m[s])
  {
    KeepSessionsMax(data, Window(MaxTimes(data), start, end));
  }

  /** sl is slice sliceId of data: its window bounds follow from the
      earliest timestamp, train is exactly the rows of the sessions ending
      in [start, middle), and test exactly the rows of the sessions ending
      in [middle, end] that survive cleaning against that train. */
  ghost predicate WindowSliceOf(sl: Slice, data: seq<Row>, sliceId: int, daysOffset: int, daysTrain: int, daysTest: int)
    requires data != []
  {
    && sl.id == sliceId
    && sl.start == MinTime(data) + daysOffset * Day
    && sl.middle == sl.start + daysTrain * Day
    && sl.end == sl.middle + daysTest * Day
    && CleanSplitOf(sl.split, data)
    && (forall r :: r in sl.split.train <==>
          r in data && sl.start <= MaxTimes(data)[r.session] < sl.middle && MaxTimes(data)[r.session] <= sl.end)
    && (forall r :: r in sl.split.test <==>
          && r in data && sl.middle <= MaxTimes(data)[r.session] <= sl.end && sl.start <= MaxTimes(data)[r.session]
          && SurvivesCleaning(r, data, sl.split.train))
  }

  lemma WindowSliceSpec(data: seq<Row>, sliceId: int, daysOffset: int, daysTrain: int, daysTest: int)
    ensures WindowSlice(data, sliceId, daysOffset, daysTrain, daysTest).Ok? <==> data != []
    ensures WindowSlice(data, sliceId, daysOffset, daysTrain, daysTest).Ok? ==>
      WindowSliceOf(WindowSlice(data, sliceId, daysOffset, daysTrain, daysTest).value, data, sliceId, daysOffset, daysTrain, daysTest)
  {
    if data != [] {
      var start := MinTime(data) + daysOffset * Day;
      var middle := start + daysTrain * Day;
      var end := middle + daysTest * Day;
      var m := MaxTimes(data);
      var mf := MaxTimes(KeepSessions(data, Window(m, start, end)));
      var sp := SplitBy(data, EndBefore(mf, middle), EndFrom(mf, middle));
      assert WindowSlice(data, sliceId, daysOffset, daysTrain, daysTest) == Ok(Slice(sliceId, start, middle, end, sp));
      SplitBySpec(data, EndBefore(mf, middle), EndFrom(mf, middle));
      forall r ensures r in sp.train <==> r in data && start <= m[r.session] < middle && m[r.session] <= end {
        WindowSession(data, start, middle, end, r.session);
      }
      forall r ensures r in sp.test <==>
        r in data && middle <= m[r.session] <= end && start <= m[r.session] && SurvivesCleaning(r, data, sp.train)
      {
        WindowSession(data, start, middle, end, r.session);
      }
    }
  }

  /** The day offset of slice k. */
  function SliceOffset(daysOffset: int, daysShift: int, k: int): int
  {
    daysOffset + k * daysShift
  }

  /** A window slice fails exactly on empty data. */
  lemma WindowSliceOk(data: seq<Row>, sliceId: int, daysOffset: int, daysTrain: int, daysTest: int)
    ensures WindowSlice(data, sliceId, daysOffset, daysTrain, daysTest).Ok? <==> data != []
    ensures data == [] ==> WindowSlice(data, sliceId, daysOffset, daysTrain, daysTest) == Err(ValueError)
  {
  }

  /** The first n results of w in order, or the first error among them:
      a loop that raises at its first failing step. */
  function Run<T>(w: nat -> Result<T>, n: nat): Result<seq<T>>
  {
    if n == 0 then Ok([])
    else
      var prev :- Run(w, n - 1);
      var one :- w(n - 1);
      Ok(prev + [one])
  }

  /** A run succeeds exactly when each of its steps does, and then holds one
      value per step. */
  lemma {:induction false} RunOk<T>(w: nat -> Result<T>, n: nat)
    ensures Run(w, n).Ok? <==> forall k :: 0 <= k < n ==> w(k).Ok?
    ensures Run(w, n).Ok? ==> |Run(w, n).value| == n
  {
    if n > 0 {
      RunOk(w, n - 1);
    }
  }

  /** Value k of a successful run is the value of step k. */
  lemma {:induction false} RunAt<T>(w: nat -> Result<T>, n: nat, k: nat)
    requires k < n
    requires Run(w, n).Ok?
    ensures k < |Run(w, n).value|
    ensures w(k) == Ok(Run(w, n).value[k])
  {
    RunOk(w, n - 1);
    if k < n - 1 {
      RunAt(w, n - 1, k);
    }
  }

  /** One more step: the run extended by the step's value, or its error. */
  lemma RunNext<T>(w: nat -> Result<T>, n: nat, prev: seq<T>)
    requires Run(w, n) == Ok(prev)
    ensures Run(w, n + 1) == if w(n).Err? then Err(w(n).error) else Ok(prev + [w(n).value])
  {
  }

  /** Once a step fails, every longer run fails with the same error. */
  lemma {:induction false} RunStops<T>(w: nat -> Result<T>, l: nat, m: nat)
    requires l <= m
    requires Run(w, l).Err?
    ensures Run(w, m) == Run(w, l)
    decreases m - l
  {
    if l < m {
      RunStops(w, l, m - 1);
    }
  }

  /** The loop of `slice_data`: steps 0 .. n - 1 in order, returning at
      the first step that fails. */
  method RunSteps<T>(w: nat -> Result<T>, n: nat) returns (r: Result<seq<T>>)
    ensures r == Run(w, n)
  {
    var values: seq<T> := [];
    var k := 0;
    while k < n
      invariant 0 <= k <= n
      invariant Run(w, k) == Ok(values)
    {
      var one := w(k);
      RunNext(w, k, values);
      if one.Err? {
        RunStops(w, k + 1, n);
        return Err(one.error);
      }
      values, k := values + [one.value], k + 1;
    }
    r := Ok(values);
  }

  /** Step k of `slice_data`: the window offset by daysOffset + k * daysShift days. */
  function Windows(data: seq<Row>, daysOffset: int, daysShift: int, daysTrain: int, daysTest: int): nat -> Result<Slice>
  {
    k => WindowSlice(data, k, SliceOffset(daysOffset, daysShift, k), daysTrain, daysTest)
  }

  /** The first n slices of `slice_data`; the first failing slice is the
      result. */
  function SliceRun(data: seq<Row>, n: nat, daysOffset: int, daysShift: int, daysTrain: int, daysTest: int)
    : Result<seq<Slice>>
  {
    Run(Windows(data, daysOffset, daysShift, daysTrain, daysTest), n)
  }

  /** The slices exist exactly when there are none to make or the data is
      not empty, and slice k is the window at offset daysOffset + k * daysShift. */
  lemma SliceRunSpec(data: seq<Row>, n: nat, daysOffset: int, daysShift: int, daysTrain: int, daysTest: int)
    ensures SliceRun(data, n, daysOffset, daysShift, daysTrain, daysTest).Ok? <==> n == 0 || data != []
    ensures SliceRun(data, n, daysOffset, daysShift, daysTrain, daysTest).Ok? ==>
      |SliceRun(data, n, daysOffset, daysShift, daysTrain, daysTest).value| == n
    ensures SliceRun(data, n, daysOffset, daysShift, daysTrain, daysTest).Ok? ==> forall k :: 0 <= k < n ==>
      WindowSlice(data, k, SliceOffset(daysOffset, daysShift, k), daysTrain, daysTest) ==
        Ok(SliceRun(data, n, daysOffset, daysShift, daysTrain, daysTest).value[k])
  {
    var w := Windows(data, daysOffset, daysShift, daysTrain, daysTest);
    RunOk(w, n);
    if n > 0 {
      WindowSliceOk(data, 0, SliceOffset(daysOffset, daysShift, 0), daysTrain, daysTest);
      assert w(0).Ok? <==> data != [];
      if data != [] {
        forall k | 0 <= k < n ensures w(k).Ok? {
          WindowSliceOk(data, k, SliceOffset(daysOffset, daysShift, k), daysTrain, daysTest);
        }
      }
    }
    forall k | 0 <= k < n && Run(w, n).Ok?
      ensures WindowSlice(data, k, SliceOffset(daysOffset, daysShift, k), daysTrain, daysTest) == Ok(Run(w, n).value[k])
    {
      RunAt(w, n, k);
    }
  }

  /** Slice k starts k * daysShift days after slice 0. */
  lemma SliceStartsShift(data: seq<Row>, k: int, daysOffset: int, daysShift: int, daysTrain: int, daysTest: int)
    requires data != []
    ensures WindowSlice(data, k, daysOffset + k * daysShift, daysTrain, daysTest).value.start ==
      WindowSlice(data, 0, daysOffset, daysTrain, daysTest).value.start + k * daysShift * Day
  {
    calc {
      (daysOffset + k * daysShift) * Day;
      daysOffset * Day + k * daysShift * Day;
    }
  }
  // ---------------------------------------------------------------------------
  // Small helpers of the module

  /** A value as `to_list` sees it: a string, another scalar, or a sequence. */
  datatype PyValue = Str(s: string) | Scalar(n: int) | List(items: seq<PyValue>)

  /** `to_list`: a non-string sequence as it is, anything else wrapped in a list. */
  function ToList(v: PyValue): (r: seq<PyValue>)
    ensures v.List? ==> r == v.items
    ensures !v.List? ==> r == [v]
  {
    match v
    case List(items) => items
    case _ => [v]
  }

  /** Applying to_list to its own result, made a list again, changes nothing. */
  lemma ToListIdempotent(v: PyValue)
    ensures ToList(List(ToList(v))) == ToList(v)
  {
  }

  function AllExist(files: seq<string>, existing: set<string>): bool
  {
    files == [] || (files[0] in existing && AllExist(files[1..], existing))
  }

  /** `files_exist`: false for an empty list, else whether every file exists
      (the file system is given as the set of existing paths). */
  function FilesExist(files: seq<string>, existing: set<string>): (r: bool)
    ensures r <==> |files| != 0 && forall i :: 0 <= i < |files| ==> files[i] in existing
  {
    AllExistSpec(files, existing);
    |files| != 0 && AllExist(files, existing)
  }

  lemma {:induction false} AllExistSpec(files: seq<string>, existing: set<string>)
    ensures AllExist(files, existing) <==> forall i :: 0 <= i < |files| ==> files[i] in existing
  {
    if files != [] {
      AllExistSpec(files[1..], existing);
      assert forall i :: 0 < i < |files| ==> files[1..][i - 1] == files[i];
    }
  }

  // ---------------------------------------------------------------------------
  // The dataset object: `load`, the filters and the splits rebind its fields

  class RetailRocketDataset {
    const processMethod: string
    /** `min_date` at 00:00:00, already converted to Unix seconds. */
    const minDate: int
    const sessionLength: int
    const minSessionLength: int
    const minItemSupport: int
    const numSlices: int
    const daysOffset: int
    const daysShift: int
    const daysTrain: int
    const daysTest: int
    /** The view rows. */
    var data: seq<Row>
    /** The add-to-cart events. */
    var cart: seq<Event>

    /** Rows stay ordered by (SessionId, Time), as written to every file. */
    ghost predicate Valid()
      reads this
    {
      SortedBy(data, RowKey) && SortedBy(cart, SessionTimeKey)
    }

    constructor (processMethod: string, minDate: int, sessionLength: int, minSessionLength: int,
                 minItemSupport: int, numSlices: int, daysOffset: int, daysShift: int,
                 daysTrain: int, daysTest: int)
      ensures Valid() && data == [] && cart == []
      ensures this.processMethod == processMethod && this.minDate == minDate
      ensures this.sessionLength == sessionLength && this.minSessionLength == minSessionLength
      ensures this.minItemSupport == minItemSupport && this.numSlices == numSlices
      ensures this.daysOffset == daysOffset && this.daysShift == daysShift
      ensures this.daysTrain == daysTrain && this.daysTest == daysTest
    {
      this.processMethod := processMethod;
      this.minDate := minDate;
      this.sessionLength := sessionLength;
      this.minSessionLength := minSessionLength;
      this.minItemSupport := minItemSupport;
      this.numSlices := numSlices;
      this.daysOffset := daysOffset;
      this.daysShift := daysShift;
      this.daysTrain := daysTrain;
      this.daysTest := daysTest;
      data := [];
      cart := [];
    }

    /** `load`: raises ValueError (from `datetime.fromtimestamp` of the NaN
        earliest time) when the log holds no view event; the fields are then
        not rebound. */
    method Load(raw: seq<RawEvent>) returns (r: Result<()>)
      requires Valid()
      modifies this
      ensures Valid()
      ensures var events := LoadEvents(raw, sessionLength);
        if Views(events) == [] then r == Err(ValueError) && data == old(data) && cart == old(cart)
        else r == Ok(()) && data == Views(events) && cart == Carts(events)
    {
      var events := LoadEvents(raw, sessionLength);
      LoadEventsSpec(raw, sessionLength);
      var views := Views(events);
      if views == [] {
        return Err(ValueError);
      }
      data := views;
      cart := Carts(events);
      r := Ok(());
    }

    /** `filter_data`: raises ValueError when nothing survives (the output
        summary formats the NaN earliest time); `data` is then not rebound. */
    method FilterData() returns (r: Result<()>)
      requires Valid()
      modifies this
      ensures Valid() && cart == old(cart)
      ensures var out := SupportFiltered(old(data), minItemSupport, minSessionLength);
        if out == [] then r == Err(ValueError) && data == old(data) else r == Ok(()) && data == out
    {
      var out := SupportFiltered(data, minItemSupport, minSessionLength);
      SupportFilteredSpec(data, minItemSupport, minSessionLength);
      if out == [] {
        return Err(ValueError);
      }
      data := out;
      r := Ok(());
    }

    /** `filter_min_date`: raises ValueError, as above, when nothing survives. */
    method FilterMinDate() returns (r: Result<()>)
      requires Valid()
      modifies this
      ensures Valid() && cart == old(cart)
      ensures var out := AfterMinDate(old(data), minDate);
        if out == [] then r == Err(ValueError) && data == old(data) else r == Ok(()) && data == out
    {
      var out := AfterMinDate(data, minDate);
      AfterMinDateSpec(data, minDate);
      if out == [] {
        return Err(ValueError);
      }
      data := out;
      r := Ok(());
    }

    /** `split_data_org`: the (train_full, test) and (train_tr, valid) files. */
    method SplitDataOrg() returns (out: OrgSplit)
      ensures out == TrailingDaySplit(data)
      ensures TrailingDayOf(out.full, data) && TrailingDayOf(out.validation, out.full.train)
    {
      out := TrailingDaySplit(data);
      TrailingDaySplitSpec(data);
    }

    /** `split_data`: the (train_full, test) files for the last daysTest days. */
    method SplitData() returns (r: Result<Split>)
      ensures r == LastDaysSplit(data, daysTest)
      ensures r.Ok? <==> data != []
      ensures r.Ok? ==> CutSplitOf(r.value, data, MaxTime(data) - daysTest * Day)
    {
      r := LastDaysSplit(data, daysTest);
      LastDaysSplitSpec(data, daysTest);
    }

    /** `split_data_slice`: one slice, its window offset given in days. */
    method SplitDataSlice(sliceId: int, offsetDays: int) returns (r: Result<Slice>)
      ensures r == WindowSlice(data, sliceId, offsetDays, daysTrain, daysTest)
      ensures r.Ok? <==> data != []
      ensures r.Ok? ==> WindowSliceOf(r.value, data, sliceId, offsetDays, daysTrain, daysTest)
    {
      r := WindowSlice(data, sliceId, offsetDays, daysTrain, daysTest);
      WindowSliceSpec(data, sliceId, offsetDays, daysTrain, daysTest);
    }

    /** `slice_data`: slices 0 .. numSlices - 1, slice k offset by
        daysOffset + k * daysShift days; the first failing slice raises. */
    method SliceData() returns (r: Result<seq<Slice>>)
      ensures r == SliceRun(data, Max(0, numSlices), daysOffset, daysShift, daysTrain, daysTest)
      ensures r.Ok? <==> (numSlices <= 0 || data != [])
      ensures r.Ok? ==> |r.value| == Max(0, numSlices)
      ensures r.Ok? ==> forall k :: 0 <= k < |r.value| ==>
        WindowSlice(data, k, SliceOffset(daysOffset, daysShift, k), daysTrain, daysTest) == Ok(r.value[k])
    {
      r := RunSteps(Windows(data, daysOffset, daysShift, daysTrain, daysTest), Max(0, numSlices));
      SliceRunSpec(data, Max(0, numSlices), daysOffset, daysShift, daysTrain, daysTest);
    }

    /** `process` up to the split: load, then filter. */
    method Prepare(raw: seq<RawEvent>) returns (r: Result<()>)
      requires Valid()
      modifies this
      ensures Valid()
      ensures var loaded := Views(LoadEvents(raw, sessionLength));
        r.Ok? <==> loaded != [] && SupportFiltered(loaded, minItemSupport, minSessionLength) != []
      ensures r.Err? ==> r.error == ValueError
      ensures r.Ok? ==> data == SupportFiltered(Views(LoadEvents(raw, sessionLength)), minItemSupport, minSessionLength)
      ensures r.Ok? ==> cart == Carts(LoadEvents(raw, sessionLength))
    {
      r := Load(raw);
      if r.Err? {
        return;
      }
      r := FilterData();
    }

    /** `process`: load, filter, then the split named by processMethod; an
        unknown name silently writes no split. The cart events are always
        written. */
    method Process(raw: seq<RawEvent>) returns (r: Result<Outputs>)
      requires Valid()
      modifies this
      ensures Valid()
      ensures var filtered := SupportFiltered(Views(LoadEvents(raw, sessionLength)), minItemSupport, minSessionLength);
        r.Err? <==> || Views(LoadEvents(raw, sessionLength)) == [] || filtered == []
                    || (processMethod == "last_min_date" && AfterMinDate(filtered, minDate) == [])
      ensures r.Err? ==> r.error == ValueError
      ensures r.Ok? ==> r.value.buys == cart == Carts(LoadEvents(raw, sessionLength))
      ensures r.Ok? ==> data != []
      ensures r.Ok? && processMethod in {"last", "last_min_date"} ==> r.value.splits == LastDay(TrailingDaySplit(data))
      ensures r.Ok? && processMethod == "days_test" ==>
        r.value.splits.LastDays? && Ok(r.value.splits.days) == LastDaysSplit(data, daysTest)
      ensures r.Ok? && processMethod == "slice" ==>
        r.value.splits.Slices? && Ok(r.value.splits.slices) == SliceRun(data, Max(0, numSlices), daysOffset, daysShift, daysTrain, daysTest)
      ensures r.Ok? && processMethod !in {"last", "last_min_date", "days_test", "slice"} ==> r.value.splits == NoSplit
      ensures r.Ok? && processMethod != "last_min_date" ==>
        data == SupportFiltered(Views(LoadEvents(raw, sessionLength)), minItemSupport, minSessionLength)
      ensures r.Ok? && processMethod == "last_min_date" ==>
        data == AfterMinDate(SupportFiltered(Views(LoadEvents(raw, sessionLength)), minItemSupport, minSessionLength), minDate)
    {
      var prepared := Prepare(raw);
      if prepared.Err? {
        return Err(prepared.error);
      }
      var splits := NoSplit;
      if processMethod == "last" {
        var o := SplitDataOrg();
        splits := LastDay(o);
      } else if processMethod == "last_min_date" {
        var f := FilterMinDate();
        if f.Err? {
          return Err(f.error);
        }
        var o := SplitDataOrg();
        splits := LastDay(o);
      } else if processMethod == "days_test" {
        var d := SplitData();
        splits := LastDays(d.value);
      } else if processMethod == "slice" {
        var s := SliceData();
        splits := Slices(s.value);
      }
      r := Ok(Outputs(splits, cart));
    }
  }
}
