# RecoHut data-preparation and model-bookkeeping core in Dafny

This project models the preprocessing and index bookkeeping of the RecoHut
recommender-systems library, with proofs about the model.

The centre is the RetailRocket session-log pipeline (`RetailRocket`). It:

- loads the event log and converts milliseconds to seconds;
- sessionizes it: a new session starts where the absolute time gap to the previous row, in
  (UserId, Time) order, exceeds the session length;
- keeps the view events as data and the add-to-cart events apart;
- applies the three-pass support filter, then optionally the minimum-date filter;
- splits the sessions in one of three ways:
  - the trailing day, with a nested validation split;
  - the last N days;
  - sliding-window slices.

Every test side is cleaned of items unseen in train and of sessions left with fewer than two
rows. The dataset object is a class whose `data` and `cart` fields the steps rebind. The
selections are functions over rows (time, user, item, session), and a map from session to
its latest timestamp drives every split.

Around it are smaller routines:

- `Sequential`: column id re-mapping, context windows, padding, masking, per-user histories,
  sliding windows.
- `Session`: fixed-length train samples, right-aligned history arrays, the train/valid/test
  partition of a session file, the GRU4Rec row format.
- `KkBox`: the age bucketizer and the ISRC country code.
- `Memory`: the bounded FIFO replay memory.
- `CommonUtils`: the download file name and the archive-extraction target.
- `Pairs`, `Pnn`, `Fm`, `XDeepFm`: the integer bookkeeping inside model constructors. This
  covers:
  - field-pair enumerations;
  - prefix-sum index offsets;
  - kernel and weight shapes;
  - CIN layer widths.
- `Beibei`: the mask, budget and sampling helpers of the Beibei subgraph sampler.

`Py` holds Python's slicing and indexing rules and a `Result` type with Python's exception
kinds. `Seqs` holds filtering, subsequences, sums and a sort.

Timestamps are integer Unix seconds, and one day is 86400 seconds. Randomness is a parameter:
a permutation, draw functions, chosen positions, or a nondeterministic choice constrained by
its contract. File contents are given as sequences.

## Model

| member | source | states |
|---|---|---|
| Seqs.SortBy | _docs/py/datasets/retailrocket.py:127-139 | the result is a permutation of the input ordered lexicographically by the two-column key |
| RetailRocket.SessionIdsStep | _docs/py/datasets/retailrocket.py:133-136 | the first session id is 0; each later id is the previous plus 1 exactly when the absolute gap to the previous row exceeds the session length, else the same id; the user does not enter the rule |
| RetailRocket.SameSessionIff | _docs/py/datasets/retailrocket.py:133-136 | two rows share a session iff no gap between them exceeds the session length; ids never decrease along the rows |
| RetailRocket.SessionExample | _docs/py/datasets/retailrocket.py:133-136 | timestamps 0, 100, 2000, 2100, 2200 with gap 1800 give sessions [0, 0, 1, 1, 1] |
| RetailRocket.Sessionize | _docs/py/datasets/retailrocket.py:129-137 | every event keeps its fields and gets the session id of its position in the (UserId, Time) order |
| RetailRocket.LoadEventsSpec | _docs/py/datasets/retailrocket.py:119-143 | the loaded events are a permutation of the sessionized (UserId, Time)-sorted events, ordered by (SessionId, Time); the view rows and the cart events keep that order; an event is a cart event iff it is a loaded add-to-cart event, and every loaded view event becomes a data row |
| RetailRocket.ViewsSorted | _docs/py/datasets/retailrocket.py:139-143 | dropping the non-view events keeps the (SessionId, Time) order |
| RetailRocket.ViewsHas | _docs/py/datasets/retailrocket.py:139-141 | a view event of the log becomes one of the data rows |
| RetailRocket.MaxTimesSpec | _docs/py/datasets/retailrocket.py:188 | the per-session maximum has an entry for exactly the sessions present, bounds every row of its session and is attained by one of them |
| RetailRocket.MaxTime | _docs/py/datasets/retailrocket.py:204 | `Time.max()` bounds every row and is attained |
| RetailRocket.MinTime | _docs/py/datasets/retailrocket.py:256 | `Time.min()` is at or below every row's time |
| RetailRocket.MinTimeAttained | _docs/py/datasets/retailrocket.py:256 | `Time.min()` is the time of one of the rows |
| RetailRocket.KeepSessionsSpec | _docs/py/datasets/retailrocket.py:208-209 | selecting by session keeps exactly the rows of kept sessions, as a subsequence, preserving the order |
| RetailRocket.KeepItemsSpec | _docs/py/datasets/retailrocket.py:210 | selecting by item keeps exactly the rows of kept items, as a subsequence, preserving the order |
| RetailRocket.KeepSessionsSize | _docs/py/datasets/retailrocket.py:163 | a kept session keeps all its rows; a dropped one has none |
| RetailRocket.KeepSessionsMax | _docs/py/datasets/retailrocket.py:267-276 | after selecting sessions, the per-session maxima are the old ones restricted to the kept sessions |
| RetailRocket.KeepSessionsPartition | _docs/py/datasets/retailrocket.py:206-209 | two complementary session selections split the rows: together they are the input as a multiset |
| RetailRocket.DropSingletonsSpec | _docs/py/datasets/retailrocket.py:162-163 | pass 1 keeps exactly the rows of sessions with more than one row (the fixed `> 1`), as an ordered subsequence |
| RetailRocket.DropRareItemsSpec | _docs/py/datasets/retailrocket.py:166-167 | pass 2 keeps exactly the rows of items with at least min_item_support rows, as an ordered subsequence |
| RetailRocket.DropShortSessionsSpec | _docs/py/datasets/retailrocket.py:170-171 | pass 3 keeps exactly the sessions of at least min_session_length rows, and every kept session still has that many |
| RetailRocket.SupportFilteredSpec | _docs/py/datasets/retailrocket.py:158-171 | the filtered rows are an ordered subsequence of the input; every remaining session has at least min_session_length rows; every row passed pass 1 and pass 2 |
| RetailRocket.ExamplePass1 | _docs/py/datasets/retailrocket.py:162-163 | on sessions [A, B, B] and [A, C] pass 1 drops nothing |
| RetailRocket.ExamplePass2 | _docs/py/datasets/retailrocket.py:166-167 | with support 2, pass 2 drops only the C row |
| RetailRocket.ExamplePass3 | _docs/py/datasets/retailrocket.py:170-171 | with length 2, pass 3 then drops the second session |
| RetailRocket.SupportFilterNotFixedPoint | _docs/py/datasets/retailrocket.py:162-171 | the three passes are not a fixed point: item A passes pass 2 with support 2 but has support 1 after pass 3 |
| RetailRocket.AfterMinDateSpec | _docs/py/datasets/retailrocket.py:188-191 | keeps exactly the rows of sessions whose latest timestamp is strictly after min_date, as an ordered subsequence |
| RetailRocket.SplitAtSpec | _docs/py/datasets/retailrocket.py:204-209 | a row goes to train iff its session ends before the cut and to test iff at or after it; the sides share no session and together hold every row |
| RetailRocket.CleanTestSpec | _docs/py/datasets/retailrocket.py:210-212 | a row survives cleaning iff it is a test row whose item occurs in train and whose session still has two or more rows after the item filter; every surviving session has two or more rows; the result is an ordered subsequence of test |
| RetailRocket.KeepSessionsItemsSize | _docs/py/datasets/retailrocket.py:210-212 | after a session selection and then an item selection, a session's size is its size under the item selection alone when it was kept, else 0 |
| RetailRocket.SplitBySpec | _docs/py/datasets/retailrocket.py:206-212 | for disjoint session sets the split is clean (no shared session, test items in train, test sessions of two or more rows); a row is in train iff its session is a train session, and in test iff its session is a test session and it survives cleaning against that train |
| RetailRocket.CleanedSplitIsSplitAt | _docs/py/datasets/retailrocket.py:204-212 | the cleaned cut-off split is the plain cut-off split with its test side cleaned against its train side |
| RetailRocket.CleanedSplitSpec | _docs/py/datasets/retailrocket.py:204-212 | the cut-off split with test cleaned is clean; a row is in train iff its session ends before the cut, and in test iff its session ends at or after the cut and it survives cleaning |
| RetailRocket.TrailingDayPart | _docs/py/datasets/retailrocket.py:204-212 | the trailing-day split of no rows is empty; of other rows it is the cleaned split at one day before the latest timestamp, with train and test both characterised row by row |
| RetailRocket.TrailingDaySplitSpec | _docs/py/datasets/retailrocket.py:202-226 | both levels are trailing-day splits in that sense: (train_full, test) of the data, and (train_tr, valid) of train_full at train_full's own latest timestamp |
| RetailRocket.LastDaysSplitSpec | _docs/py/datasets/retailrocket.py:232-244 | fails exactly on empty data; otherwise clean, with a row in train iff its session ends before max − days_test days, and in test iff its session ends at or after that cut and it survives cleaning |
| RetailRocket.WindowSession | _docs/py/datasets/retailrocket.py:267-278 | within the window prefilter, a session is a train (test) session iff its latest time lies in [start, middle) ([middle, end]) of the whole data |
| RetailRocket.WindowSliceSpec | _docs/py/datasets/retailrocket.py:254-291 | fails exactly on empty data; start = min time + offset days, middle = start + days_train days, end = middle + days_test days; the split is clean; a row of the data is in train iff its session ends in [start, middle), and in test iff its session ends in [middle, end] and it survives cleaning against that train |
| RetailRocket.WindowSliceOk | _docs/py/datasets/retailrocket.py:256 | a slice fails, with ValueError, exactly on empty data |
| RetailRocket.RunOk | _docs/py/datasets/retailrocket.py:250-252 | a run of steps succeeds iff every step does, and then holds one value per step |
| RetailRocket.RunAt | _docs/py/datasets/retailrocket.py:250-252 | value k of a successful run is the value of step k |
| RetailRocket.RunNext | _docs/py/datasets/retailrocket.py:251-252 | one more loop step appends the step's value or yields its error |
| RetailRocket.RunStops | _docs/py/datasets/retailrocket.py:251-252 | once a step fails every longer run fails with that error |
| RetailRocket.RunSteps | _docs/py/datasets/retailrocket.py:250-252 | the loop over steps 0 .. n − 1, returning at the first failing step, computes the run |
| RetailRocket.SliceRunSpec | _docs/py/datasets/retailrocket.py:250-252 | n slices succeed iff n is 0 or the data is non-empty, and then there are n of them; slice k is the window at offset days_offset + k·days_shift |
| RetailRocket.SliceStartsShift | _docs/py/datasets/retailrocket.py:252-262 | slice k starts k·days_shift days after slice 0 |
| RetailRocket.ToList | _docs/py/datasets/retailrocket.py:48-52 | a non-string sequence is returned as it is; anything else (a string included) is wrapped in a one-element list |
| RetailRocket.ToListIdempotent | _docs/py/datasets/retailrocket.py:48-52 | applying to_list to its own list result changes nothing |
| RetailRocket.FilesExist | _docs/py/datasets/retailrocket.py:54-57 | true iff the list is non-empty and every file exists |
| RetailRocket.AllExistSpec | _docs/py/datasets/retailrocket.py:57 | the recursive `all` is true iff every file exists |
| RetailRocket.RetailRocketDataset.constructor | _docs/py/datasets/retailrocket.py:83-98 | stores every parameter, with empty data and cart |
| RetailRocket.RetailRocketDataset.Load | _docs/py/datasets/retailrocket.py:119-156 | data becomes the view rows and cart the add-to-cart events of the sessionized log; ValueError when there is no view event; the order invariant is kept |
| RetailRocket.RetailRocketDataset.FilterData | _docs/py/datasets/retailrocket.py:158-180 | data becomes the three-pass filtered rows; ValueError when nothing survives; cart unchanged |
| RetailRocket.RetailRocketDataset.FilterMinDate | _docs/py/datasets/retailrocket.py:182-200 | data becomes the sessions ending after min_date; ValueError when nothing survives; cart unchanged |
| RetailRocket.RetailRocketDataset.SplitDataOrg | _docs/py/datasets/retailrocket.py:202-230 | returns the two trailing-day splits: (train_full, test) of data and (train_tr, valid) of train_full, each with train and test characterised row by row at its own latest timestamp |
| RetailRocket.RetailRocketDataset.SplitData | _docs/py/datasets/retailrocket.py:232-248 | returns the last-days split: it fails exactly on empty data; otherwise train and test are characterised row by row at max − days_test days |
| RetailRocket.RetailRocketDataset.SplitDataSlice | _docs/py/datasets/retailrocket.py:254-296 | returns the window slice: it fails exactly on empty data; otherwise it carries its id and window bounds, and train and test are characterised row by row |
| RetailRocket.RetailRocketDataset.SliceData | _docs/py/datasets/retailrocket.py:250-252 | the result is the slice run: num_slices slices, slice k the window at offset days_offset + k·days_shift, or the first error (exactly when there are slices to make and no data) |
| RetailRocket.RetailRocketDataset.Prepare | _docs/py/datasets/retailrocket.py:301-303 | succeeds iff loading and filtering both leave rows; data is then the filtered view rows and cart the cart events |
| RetailRocket.RetailRocketDataset.Process | _docs/py/datasets/retailrocket.py:301-313 | fails, with ValueError, iff loading leaves no view row, filtering leaves none, or "last_min_date" and the min-date filter leaves none; otherwise dispatches on process_method: "last" and "last_min_date" give the trailing-day split of the final data, "days_test" the last-days split, "slice" the run of num_slices slices, any other name no split; the buys are always the cart events |
| Sequential.InsertUnique | recohut/datasets/bases/sequential.py:63 | inserting into a strictly increasing list keeps it strictly increasing and adds exactly x |
| Sequential.SortedUnique | recohut/datasets/bases/sequential.py:63 | `sorted(unique)` is strictly increasing with exactly the column's values |
| Sequential.Mapping | recohut/datasets/bases/sequential.py:64 | the mapping's keys are exactly the values |
| Sequential.InverseMapping | recohut/datasets/bases/sequential.py:65 | the inverse's keys are exactly 2 .. n + 1 |
| Sequential.MappingAt | recohut/datasets/bases/sequential.py:64-65 | the value at position i maps to i + 2, and the inverse sends i + 2 back to it |
| Sequential.MappingIndex | recohut/datasets/bases/sequential.py:64 | every key of the mapping is one of the values |
| Sequential.MapColumnSpec | recohut/datasets/bases/sequential.py:63-65 | a value is mapped iff it occurs in the column; its id lies in 2 .. n + 1, and the inverse sends the id back to it |
| Sequential.MappingOrdered | recohut/datasets/bases/sequential.py:63-64 | the column mapping preserves order, so it is injective |
| Sequential.MappingMonotone | recohut/datasets/bases/sequential.py:64 | over a strictly increasing value list, smaller keys get smaller ids |
| Sequential.InverseMappingExact | recohut/datasets/bases/sequential.py:65 | every id of the inverse names a value that maps back to that id |
| Sequential.InverseExact | recohut/datasets/bases/sequential.py:65 | the same for any strictly increasing value list |
| Sequential.Frame.MapColumn | recohut/datasets/bases/sequential.py:60-67 | a missing column raises KeyError and leaves the frame unchanged; otherwise adds `col_mapped` with each value's id and returns both mappings |
| Sequential.TrainEnd | recohut/datasets/bases/sequential.py:74 | `randint(10, n − v)` succeeds iff 10 ≤ n − v and lands in that range; otherwise ValueError |
| Sequential.GetContextEval | recohut/datasets/bases/sequential.py:75-80 | "valid" and "test" give the last min(n, context_size) rows; an unknown split raises ValueError |
| Sequential.GetContextTrain | recohut/datasets/bases/sequential.py:73-80 | "train" fails iff there are fewer than 10 + val_context_size rows; otherwise the up to context_size rows ending at some end in [10, n − val_context_size] |
| Sequential.PadListSpec | recohut/datasets/bases/sequential.py:86-91 | a short list becomes exactly history_size long, padding before the elements in left mode and after them otherwise; a long list is unchanged |
| Sequential.PadListIdempotent | recohut/datasets/bases/sequential.py:86-91 | padding twice equals padding once |
| Sequential.MaskList | recohut/datasets/bases/sequential.py:93-96 | masking keeps the length |
| Sequential.MaskListSpec | recohut/datasets/bases/sequential.py:95 | each output element is the input element or the mask |
| Sequential.MaskLastElementsSpec | recohut/datasets/bases/sequential.py:99 | the length is kept; for val_context_size > 0 every element before the last val_context_size is unchanged |
| Sequential.MaskLastElementsZero | recohut/datasets/bases/sequential.py:99 | as written, val_context_size = 0 can mask the first (here the only) element |
| Sequential.MaskLastElementsFixed | recohut/datasets/bases/sequential.py:99 | the corrected rule keeps the length |
| Sequential.MaskLastElementsFixedSpec | recohut/datasets/bases/sequential.py:99 | the corrected rule keeps all but the last max(0, v) elements, changes nothing for v ≤ 0, and agrees with the code for v ≥ 1 |
| Sequential.UserItemsSnoc | recohut/datasets/bases/sequential.py:104 | one more triple adds its item to its own user's list only |
| Sequential.HistoryStep | recohut/datasets/bases/sequential.py:104 | one append keeps every slot equal to its user's items so far |
| Sequential.MakeUserHistory | recohut/datasets/bases/sequential.py:102-105 | IndexError iff some user index is outside the list; otherwise slot u lists u's items in input order, and the lists hold one entry per triple |
| Sequential.CreateSequences | recohut/datasets/bases/sequential.py:150-163 | the while loop returns the windows at 0, step, 2·step, … that fit, then the tail window when the values fill one |
| Sequential.WindowStep | recohut/datasets/bases/sequential.py:153-156 | the loop's slice k is full iff k is below the window count |
| Sequential.WindowsFromPrefix | recohut/datasets/bases/sequential.py:156-160 | after the full windows, appending the tail when it is full completes the result |
| Sequential.WindowFits | recohut/datasets/bases/sequential.py:154-156 | window k fits inside the values iff k is below the window count |
| Sequential.WindowsSpec | recohut/datasets/bases/sequential.py:150-163 | every window has length window_size; window k before the last is values[k·step : k·step + window_size]; the last is the tail; the result is empty iff the values are shorter than one window |
| Sequential.TailRepeats | recohut/datasets/bases/sequential.py:156-159 | when step divides len − window_size, the last full window is the tail and appears twice |
| Session.TrainSampleSpec | recohut/datasets/torch/session.py:43-51 | for maxlen ≥ 1 the session becomes exactly maxlen long: its last maxlen items, or zeros then the session; curr_seq and curr_pos are that sequence minus its last and first item, each maxlen − 1 long, with curr_pos[i] = curr_seq[i + 1] |
| Session.NormalizeSpec | recohut/datasets/torch/session.py:43-47 | for maxlen ≥ 1 the session becomes exactly maxlen long: its last maxlen items, or zeros then the whole session |
| Session.TrainMaxlenZero | recohut/datasets/torch/session.py:45-46 | with maxlen = 0 `session[-0:]` keeps the whole session |
| Session.RightAlignedIsNormalize | recohut/datasets/torch/session.py:55-60 | the right-aligned array is the last maxlen items, or zeros then the list |
| Session.FillRightAligned | recohut/datasets/torch/session.py:138-145 | the backward fill gives the right-aligned array for maxlen ≥ 1, [] for maxlen 0 with nothing to write, IndexError for maxlen 0 otherwise, and ValueError for a negative length |
| Session.TestSample | recohut/datasets/torch/session.py:53-61 | the history before the last item, right-aligned to maxlen, and the label last − 1; IndexError for an empty session |
| Session.KeptLines | recohut/datasets/torch/session.py:86 | the kept lines are never more than the lines |
| Session.KeptLinesSpec | recohut/datasets/torch/session.py:86 | a line is kept iff it has at least 5 items |
| Session.KeptSnoc | recohut/datasets/torch/session.py:132-136 | one more line adds itself to the kept lines iff it has at least 5 items |
| Session.NextItNetFormat | recohut/datasets/torch/session.py:125-151 | one right-aligned length-maxlen array per kept line, in file order; ValueError or IndexError for maxlen < 0 or = 0 when a line is kept |
| Session.ItemNum | recohut/datasets/torch/session.py:92 | itemnum is 0 or an item of some kept line, and no kept item exceeds it |
| Session.Gather | recohut/datasets/torch/session.py:115-120 | the lines at the given positions, in that order |
| Session.DataPartition | recohut/datasets/torch/session.py:70-122 | ZeroDivisionError iff no line is kept; otherwise the lines at perm[:t], perm[t:v] and perm[v:] with v bumped when equal to t, and itemnum |
| Session.PiecesInRange | recohut/datasets/torch/session.py:111-113 | every index in a piece of the permutation is a valid line position |
| Session.IndexPiecesPartition | recohut/datasets/torch/session.py:111-113 | the three pieces are contiguous, concatenate to the permutation, are pairwise disjoint and cover every position |
| Session.PiecesConcat | recohut/datasets/torch/session.py:111-113 | the pieces are the permutation cut at the clamped boundaries |
| Session.GruRowsSpec | recohut/datasets/torch/session.py:156-173 | one row per item; the k-th item of session i is row ItemCount(sessions[..i]) + k, with session id start + i, that item and time 0; session ids lie in [start, start + |sessions|) and never decrease |
| Session.ItemCountPrefix | recohut/datasets/torch/session.py:156-173 | the items of the sessions before i plus those of session i are at most all the items |
| Session.GruRowAt | recohut/datasets/torch/session.py:156-173 | the k-th item of session i sits at row ItemCount(sessions[..i]) + k as GruRow(start + i, item, 0) |
| Session.GruRowsOrder | recohut/datasets/torch/session.py:156-173 | every row's session id lies in [start, start + |sessions|) with time 0, and the ids never decrease |
| Session.GruRowsLength | recohut/datasets/torch/session.py:156-173 | one row per item |
| Session.EmitRows | recohut/datasets/torch/session.py:158-161 | the loop over one split emits its rows and advances the counter by its number of sessions |
| Session.GruFormat | recohut/datasets/torch/session.py:154-179 | the three frames with session ids running consecutively from train into valid into test |
| Session.GruFormatConsecutive | recohut/datasets/torch/session.py:156-173 | train ids lie below valid ids and valid ids below test ids; the row count is the total item count |
| KkBox.Bucketize | recohut/datasets/kkbox.py:44-64 | the output is one of "", "1" … "7", and "" iff the age is missing or outside [1, 95] |
| KkBox.BucketizeDecades | recohut/datasets/kkbox.py:46-64 | [1, 10] gives "1", (10(d − 1), 10d] gives d for d = 2 … 6, (60, 95] gives "7" |
| KkBox.BucketizeMonotone | recohut/datasets/kkbox.py:49-64 | over [1, 95] the bucket never decreases with the age |
| KkBox.CountryCode | recohut/datasets/kkbox.py:40-41 | the first min(2, len) characters of a present ISRC, "" for a missing one |
| Memory.AppendedSpec | _docs/py/rl/memory.py:21-31 | below capacity the element is appended and nothing else changes; when full the oldest is evicted and the rest keep their order; the length never exceeds capacity |
| Memory.ReplayMemory.constructor | _docs/py/rl/memory.py:15-21 | an empty buffer with the given capacity |
| Memory.ReplayMemory.Len | _docs/py/rl/memory.py:23-24 | the number of stored experiences, never above capacity |
| Memory.ReplayMemory.Push | _docs/py/rl/memory.py:26-31 | the buffer becomes the bounded append of the experience |
| Memory.ReplayMemory.Sample | _docs/py/rl/memory.py:33-40 | ValueError iff batch_size is negative or above the length; otherwise batch_size experiences from distinct positions, the buffer untouched |
| Memory.NewReplayMemory | _docs/py/rl/memory.py:15-21 | a negative capacity raises ValueError; otherwise a fresh empty memory |
| CommonUtils.JoinSplit | recohut/utils/common_utils.py:105 | joining the pieces of `split(c)` with c gives the string back |
| CommonUtils.SplitLast | recohut/utils/common_utils.py:39 | the last piece of a split is what the last separator is followed by, as `rpartition` gives it |
| CommonUtils.SplitCount | recohut/utils/common_utils.py:105 | the split has one piece iff the separator does not occur |
| CommonUtils.AbsPath | recohut/utils/common_utils.py:103 | the absolute path starts with '/' |
| CommonUtils.Filename | recohut/utils/common_utils.py:39-40 | IndexError iff the last URL segment is empty; otherwise a prefix of it without '/', kept whole when it starts with '?', else cut before its first '?' and free of '?' |
| CommonUtils.DownloadPath | recohut/utils/common_utils.py:39-41 | fails iff the file name does; for a folder not ending in '/' the path is folder + "/" + name |
| CommonUtils.StemPrefix | recohut/utils/common_utils.py:105 | the stem is the path up to its last '.', and empty without one |
| CommonUtils.StemSpec | recohut/utils/common_utils.py:105-120 | without '.' the stem is ""; otherwise stem + "." + last component is the path |
| CommonUtils.ExtractIgnoresFolder | recohut/utils/common_utils.py:103-105 | as written, whenever the path has a '.', the absolute stem replaces the folder in the join |
| CommonUtils.ExtractExample | recohut/utils/common_utils.py:118-120 | "data/x.bz2" extracted into "/out" from "/home" lands at "/home/data/x" |
| CommonUtils.ExtractTargetFixedSpec | recohut/utils/common_utils.py:105 | the corrected target is folder + "/" + a name without '/' |
| CommonUtils.ExtractFixedExample | recohut/utils/common_utils.py:105 | under the corrected rule the example lands at "/out/x" |
| Pairs.RowPairs | recohut/models/pnn.py:19-21 | the inner loop for row i yields (i, i + 1) … (i, n − 1) |
| Pairs.RowsBelowMem | recohut/models/pnn.py:19-21 | the first i rows hold exactly the pairs with first index below i and p.0 < p.1 < n |
| Pairs.RowsBelowSorted | recohut/models/pnn.py:19-21 | the rows so far are in strictly increasing lexicographic order |
| Pairs.RowsBelowCount | recohut/models/pnn.py:19-21 | the first i rows have i(2n − i − 1)/2 pairs |
| Pairs.UpperPairsSpec | recohut/models/pnn.py:18-21 | exactly the pairs i < j < n, in strictly increasing lexicographic order, none twice, n(n − 1)/2 of them |
| Pairs.RowCol | recohut/models/pnn.py:18-21 | the nested loops fill row and col with the pairs of the enumeration |
| Pnn.NumIx | recohut/models/pnn.py:29 | num_ix is the number of enumerated pairs |
| Pnn.InnerPairs | recohut/models/pnn.py:17-21 | num_ix pairs, each 0 ≤ row < col < num_fields, in enumeration order |
| Pnn.OuterPairs | recohut/models/pnn.py:46-50 | the outer network builds the same lists |
| Pnn.KernelShape | recohut/models/pnn.py:30-37 | (e, num_ix, e) for 'mat', (num_ix, e) for 'vec', (num_ix, 1) for 'num', ValueError otherwise |
| Pnn.PnnInit | recohut/models/pnn.py:65-77 | only 'inner' or 'outer' are accepted (else ValueError); outer uses the 'mat' kernel; embed_output_dim = n·e and the MLP input is n(n − 1)/2 + n·e |
| Pnn.MlpInputMatchesConcat | recohut/models/pnn.py:76-77 | the MLP input width is the embedding width plus one value per field pair |
| Fm.IndexMapping | recohut/models/tf/fm.py:29-33 | index_mapping[k] is the sum of feat_num before k, one entry per feature; feature_length is the total |
| Fm.PrefixSumsGrow | recohut/models/tf/fm.py:29-33 | each field's range ends no later than any later field's offset |
| Fm.IndexMappingMonotone | recohut/models/tf/fm.py:29-33 | the offsets never decrease and lie in [0, feature_length] |
| Fm.OffsetInRange | recohut/models/tf/fm.py:53 | a field-local id lands in its field's own range inside [0, feature_length), and the global ids of one row strictly increase by field, so fields never share an index |
| Fm.FfmLayerInit | recohut/models/tf/fm.py:139-144 | the same prefix sums, with field_num the number of columns |
| Fm.FfmSecondOrder | recohut/models/tf/fm.py:165-169 | the double loop adds exactly the products of the enumerated pairs i < j < field_num |
| Fm.AfmRowCol | recohut/models/tf/fm.py:300-304 | n(n − 1)/2 pairs, 0 ≤ row < col < n, in strictly increasing lexicographic order |
| Fm.CinWeightShapes | recohut/models/tf/fm.py:442-454 | one weight per CIN layer |
| Fm.CinWeightsChain | recohut/models/tf/fm.py:442-454 | weight i has shape (1, embedding_nums·field_nums[i], cin_size[i]); the first reads embedding_nums², each later one embedding_nums times the previous output |
| Fm.CinCall | recohut/models/tf/fm.py:456-478 | the widths `call` reshapes to are the weights' input widths, and the concatenated result has sum(cin_size) rows |
| XDeepFm.Kept | _docs/py/models/xdeepfm.py:80-82 | a layer keeps at most its size, and all of it without split_half or for the last layer |
| XDeepFm.CinDims | _docs/py/models/xdeepfm.py:70-84 | one conv per cross layer with input_dim·prev_dim input channels and its size as output; fc_input_dim sums what each layer keeps |
| XDeepFm.NoSplitWidth | _docs/py/models/xdeepfm.py:79-84 | without split_half, fc_input_dim is the sum of the cross-layer sizes |
| XDeepFm.SplitWidthBounds | _docs/py/models/xdeepfm.py:80-83 | with split_half, fc_input_dim lies between (sum − layers)/2 and the sum |
| Beibei.Wrap | recohut/datasets/beibei.py:81 | a numpy index in [−size, size) addresses a position below size, itself or size more |
| Beibei.Targets | recohut/datasets/beibei.py:81 | the positions the nodes address, one per node |
| Beibei.Where | recohut/datasets/beibei.py:107 | `argwhere` lists, in increasing order, exactly the positions where the entry is (or is not) zero |
| Beibei.MakeMask | recohut/datasets/beibei.py:78-82 | ValueError for a negative size; IndexError iff some node is out of range; otherwise the mask of the nodes |
| Beibei.MaskZeros | recohut/datasets/beibei.py:79-82 | the mask is 0/1, and zero exactly at the addressed positions; no nodes gives all ones |
| Beibei.Mul | recohut/datasets/beibei.py:157 | the product of two masks is a mask, zero where either is |
| Beibei.AddBudget | recohut/datasets/beibei.py:94 | adding budgets is pointwise, with the scalar 0 as identity |
| Beibei.ColSumAppend | recohut/datasets/beibei.py:94 | the column sum over two row groups is the sum of their column sums |
| Beibei.RowsSumConcat | recohut/datasets/beibei.py:94 | the row sum of a + b is the row sum of a plus that of b |
| Beibei.BatchCount | recohut/datasets/beibei.py:90 | ceil(n / 1000) batches: enough for n, and one fewer is not |
| Beibei.BatchesPartition | recohut/datasets/beibei.py:88-93 | every batch is non-empty with at most 1000 nodes, and the batches in order are a prefix of the nodes |
| Beibei.BatchesAll | recohut/datasets/beibei.py:88-93 | all the batches together are the nodes |
| Beibei.BatchBad | recohut/datasets/beibei.py:93-94 | a bad node in a batch is a bad node of the list |
| Beibei.BatchGood | recohut/datasets/beibei.py:88-94 | adding a batch's row sums to the running total gives the total up to the batch's end |
| Beibei.UpdateBdgt | recohut/datasets/beibei.py:84-95 | 0 for None or no nodes; IndexError iff a node is out of range; otherwise the sum of the adjacency rows of all the nodes |
| Beibei.Scores | recohut/datasets/beibei.py:99 | scores are non-negative, and one per mask entry when the budget fits |
| Beibei.NormZero | recohut/datasets/beibei.py:100-101 | the norm is 0 iff every score is |
| Beibei.PositivePrefix | recohut/datasets/beibei.py:107-112 | the first n positive positions are n distinct positions of positive probability |
| Beibei.NoWeightOutcome | recohut/datasets/beibei.py:101-102 | with no weight, one position and a residual of sampNum − 1 |
| Beibei.ShortOutcome | recohut/datasets/beibei.py:106-113 | with fewer positive positions than sampNum, all of them and the shortfall as residual |
| Beibei.FullOutcome | recohut/datasets/beibei.py:111-113 | a full draw of sampNum positive positions owes nothing |
| Beibei.Choose | recohut/datasets/beibei.py:100-113 | ValueError iff an empty score has no weight or a weighted draw asks for a negative count; otherwise one of the three outcomes, flagged as a 0-d array iff the short branch squeezes exactly one positive position |
| Beibei.Sample | recohut/datasets/beibei.py:98-113 | a broadcast error is ValueError; otherwise the draw's outcome on the scores of the budget under the mask, with the same 0-d flag |
| Beibei.RowEntries | recohut/datasets/beibei.py:118-120 | a row's listed entries are its non-zero cells, left to right |
| Beibei.RowEntriesComplete | recohut/datasets/beibei.py:118-120 | every non-zero cell of the row is listed |
| Beibei.Entries | recohut/datasets/beibei.py:118-120 | every listed entry is a non-zero cell with its value |
| Beibei.EntriesSorted | recohut/datasets/beibei.py:118-120 | the entries are in strictly increasing row-major order |
| Beibei.EntriesComplete | recohut/datasets/beibei.py:118-120 | every non-zero cell is listed |
| Beibei.TransToLsts | recohut/datasets/beibei.py:115-137 | the shape is (rows, cols); the coordinates are the non-zero cells in order, values zeroed where the mask coin drops them; a matrix with no non-zero cell gives [(0, 0)] and [0.0] |
| Beibei.TransToLstsIndices | recohut/datasets/beibei.py:118-119 | a coordinate is listed iff the matrix is non-zero there |
| Beibei.SampleAndMask | recohut/datasets/beibei.py:164-167 | fails iff the draw does; otherwise keeps a 0/1 mask of the same length that never goes from 0 back to 1, returns valid positions with the draw's outcome, and flags a 0-d pick |
| Beibei.GrowBudget | recohut/datasets/beibei.py:170-171 | a 0-d pick fails at `len(nodes)` with TypeError; otherwise the grown budget keeps its width, no new nodes leave it unchanged, and a zero budget becomes the row sum of the nodes |
| Beibei.StillMasked | recohut/datasets/beibei.py:152-173 | a position masked by `make_mask` stays among `argwhere(mask == 0)` |
| Beibei.Rounds | recohut/datasets/beibei.py:159-171 | over the sampDepth + 1 rounds both masks stay 0/1 masks of their lengths and never go from 0 back to 1 |
| Beibei.SampleLargeGraph | recohut/datasets/beibei.py:149-173 | bad picked users fail; when no items are given and the first item draw squeezes to a 0-d array, `update_bdgt` at line 158 fails with TypeError; the returned users and items are increasing valid positions that include every picked user and every given picked item |

## Left out

- I/O is not modelled: reading events.csv and session files, `to_csv` writes, the statistics `print`s, downloads, `makedirs` and archive extraction. File contents are input sequences; written files are returned values.
- Randomness is a parameter: the permutation of `data_partition`, `random.randint` in `get_context`, the draws of `mask_list`, the positions of `random.sample`, `np.random.choice` in the Beibei sampler (a nondeterministic choice bounded by its contract) and the half-mask coins of `transToLsts`.
- Dates are integer Unix seconds, as described above. `datetime`, timezones and the local-time parsing of `min_date` are not modelled.
- The `percentage`-based train/valid boundaries of `data_partition` are parameters. Their float products are not modelled; the tie bump is.
- Floating point: ages, scores and matrix values are reals or integers. The Beibei degree normalisations (beibei.py:60-68 and 122-128) and the division by the norm in `sample` are not modelled. A non-zero score keeps a non-zero probability.
- Beibei matrices are dense sequences rather than scipy sparse matrices, and `construct_data` is not modelled: its call at beibei.py:174 passes the wrong arguments.
- Beibei's sampNum default 1e3 is a float in the source; the model takes an integer.
- `sample_large_graph`'s test `i == sampDepth or (i == sampDepth and …)` is modelled as written: the loop breaks only in the last round.
- Beibei.GrowBudget: the contract states the budget's width, but not its value when a non-zero budget grows by a row sum.
- Beibei.SampleLargeGraph: the contract states the ordering, range and inclusion of the picked nodes, not every sampled node.
- Beibei.Rounds: the contract states the masks, not which round's 0-d pick raises TypeError; GrowBudget states that failure, and the loop propagates it.
- `posixpath.abspath` is modelled without normalising "." and "..".
- Tensor layers, forward passes, the `call` methods of `fm.py` and the learned weights are not modelled; only their shapes and index lists are. The FFM second-order term is modelled on integer latent vectors.
- Sequential.CreateSequences: requires `Stops`: window_size ≥ 1, and step_size ≥ 1 unless the values are shorter than one window (then the first slice is short and the result is []). With window_size 0, or step_size 0 on values that fill a window, the source's `while True` never stops. The sizes are `nat`, so a negative step (which the source accepts and which ends the loop) is not modelled.
- Numpy details: the int32 dtype of `nextitnet_format`'s arrays, `np.asarray` of ragged lists, and kkbox's `float(age)` parsing are not modelled. Values are unbounded integers, ragged lists stay lists of lists, and ages arrive as numbers.
- The `pad_list` mode, `to_list`'s other `Sequence` types and pandas' NaN handling in `extract_country_code` use the simplest values that show the behaviour: strings for modes, a three-case value type, and `Option`.
- The sorts of `load` are an insertion sort on values, not pandas' in-place sort of the frame; the model proves sortedness and permutation, so rows with equal keys may be ordered differently from pandas.
- Not part of this model: the DataLoader and LightningDataModule plumbing of sequential.py, other datasets' download helpers, and the files outside the modules named above.

## Findings

| source | as written | input that shows it | evidently intended | confidence | as-written member | corrected member |
|---|---|---|---|---|---|---|
| recohut/datasets/bases/sequential.py:99 | `l1[:-v] + mask_list(l1[-v:])` with v = 0 masks among the whole list, since `l1[:-0]` is empty and `l1[-0:]` is everything | l1 = [7], val_context_size = 0, a draw of 0.9 gives [mask] | masking only the last max(0, v) elements, none for v = 0 | not executed | Sequential.MaskLastElementsZero | Sequential.MaskLastElementsFixedSpec |
| recohut/utils/common_utils.py:103-105, 118-120 | `osp.join(folder, stem)` with the stem of the absolute archive path: the absolute stem replaces the folder, so the output lands beside the archive | path "data/x.bz2", folder "/out", working directory "/home" gives "/home/data/x" | the archive's own name without its extension, inside folder: "/out/x" | not executed | CommonUtils.ExtractExample | CommonUtils.ExtractTargetFixedSpec |
