# XY-cut reading order, in Dafny

This is a model of the recursive XY-cut region sorter of pero-ocr
(`pero_ocr/layout_engines/xy_cut.py`, class `XYCutRegionSorter`). The sorter
takes a page's regions as integer boxes `(x0, y0, x1, y1)` and the regions'
indices. It appends the indices to an output list in reading order:

- it cuts the page into horizontal bands wherever a row is covered by no box;
- it cuts each band into columns wherever a column position is covered by no box;
- it recurses into each column.

The three static methods of the class are modelled:

- **`projection_by_bboxes`** is `Projection.ProjectionByBboxes`. It is an
  imperative method that fills an `array<int>` slice by slice, through
  `Projection.AddSlice`. It is proved against the value-level histogram
  `Projection.Profile`, whose entries are the coverage counts
  `Projection.Coverage`.
- **`split_projection_profile`** is the pure function
  `ProfileSplit.SplitProjectionProfile`. It works over `seq<int>` and returns
  `Option<(seq<int>, seq<int>)>`. It is built the way the source builds it:
  `WhereFrom`/`Where` stand for `np.where`, `Diffs` for `arr[1:] - arr[0:-1]`,
  and `RunStarts`/`RunEnds` for the `np.insert`/`np.append` pair. Lemmas about
  it characterise the result: the runs, their order, their gaps, and which
  positions are active.
- **`recursive_xy_cut`** is the imperative method `XyCut.RecursiveXyCut`.
  - Its band loop is `XyCut.CutBands`, and one pass of that loop is
    `XyCut.BandPass`. The body of the loop for one band is `XyCut.CutBand`.
  - The column loop is `XyCut.CutColumns`, and one pass of it is
    `XyCut.ColumnPass`.
  - These six methods are mutually recursive. Termination rests on
    `Bands.RunSmaller`: with two columns or more, every column leaves out at
    least one box (the recursive calls' size measure). `Bands.RunNonEmpty`
    shows that no band or column handed on is empty, which the callees'
    `|boxes| > 0` requires.

The shared list `res` is threaded through the calls: each call receives it and
returns it extended. Because the list is only ever appended to, this is
equivalent to the aliasing in the source. Each cut method also returns a ghost
sequence `emitted`, the box behind each appended index. The ordering
guarantees are stated over that sequence.

Other modules:

- `Sorting.ArgSort` is an insertion sort standing for `argsort`. It promises
  only what every admissible `argsort` shares: a permutation of the positions,
  in ascending key order.
- `XyCut.SortOn` applies that order to the boxes and to the indices. It keeps
  the (box, index) pairs.
- `Selection.Select` is the half-open boolean-mask filter of lines 151-154 and
  176-178.
- `Bands` translates facts about a split histogram into facts about boxes:
  - an active line is a covered line;
  - every run begins where a box begins;
  - a box of positive extent lies within one run;
  - two runs or more mean two boxes separated by an uncovered line.
- `ReadingOrder` defines the output properties and the loop invariants of the
  two loops:
  - `Appended`: the old contents stay a prefix, and each new index is paired
    with its box;
  - `TopDown`: no box comes out after a box lying wholly below it across an
    empty row;
  - `LeftRight` and `LeftToRight`: the same, for columns;
  - `BandsDone` and `ColumnsDone`: the loop invariants, with `BandsOrdered`
    and `ColumnsOrdered` for the bands and columns already laid out.
- `XyOrder` states the reading order itself, against the boxes alone:
  - `XyOrdered(region, e)`: in `e`, no box of the region comes after a box
    lying wholly above it across an empty row, and every band of the region
    (a run of the region's vertical split) is `BandOrdered`;
  - `BandOrdered(band, e)`: no box of the band comes after a box lying wholly
    left of it across an empty column. A band whose horizontal split has one
    run comes out by ascending `y0`; a band with several runs has every
    column `XyOrdered`, which is the recursion of lines 175-181;
  - `BandsInOrder`, `ColumnsInOrder`, `ColumnTopDown` and `ColumnXyOrdered`
    read the definition back as statements about two boxes: a box of an
    earlier band comes out first, a box of an earlier column of the same band
    comes out first, a one-column band comes out by `y0`, and each column is
    again in reading order.

What the cut is proved to do, for every input of the accepted shape (the same
number of boxes and indices, non-empty, non-negative coordinates):

- the old contents of `res` stay an unchanged prefix;
- every appended index comes from `indices`, paired with its own box, and no
  index comes out more often than it occurs in `indices`;
- when no box has positive height, the call appends nothing;
- when every box has positive width and height (`x0 < x1`, `y0 < y1`), the
  appended indices are a permutation of `indices`;
- for such boxes, no box comes out after a box lying wholly below it across an
  empty row;
- for such boxes, of two boxes sharing a row, neither comes out after a box
  lying wholly to its right across an empty column;
- for such boxes, the output is `XyOrdered`: bands top to bottom, within a
  band columns left to right, within a one-column band by `y0`, and within a
  column recursively the same.

For a band that has a single column, line 171 appends
`y_sorted_indices_chunk`, the band's indices in `y0` order, although lines
156-158 have just sorted the chunk by `x0`: the `x0`-sorted copy serves only to
compute the horizontal projection and to select the columns. `XyCut.CutBand`
does the same. It receives the band in `y0` order, and in the one-column case
it appends the indices in that order.

## Model

| member | source | states |
|---|---|---|
| Projection.Coverage | pero_ocr/layout_engines/xy_cut.py:78-79 | the count of boxes covering a position never exceeds the number of boxes, and is zero exactly when no box's half-open extent contains the position |
| Projection.Extent | pero_ocr/layout_engines/xy_cut.py:75 | the histogram length bounds every start and end coordinate on the axis and is attained by one of them (the maximum over both columns of `boxes[:, axis::2]`) |
| Projection.Profile | pero_ocr/layout_engines/xy_cut.py:74-80 | the histogram has the extent as its length and the coverage count of each position as its entry |
| Projection.ProjectionByBboxes | pero_ocr/layout_engines/xy_cut.py:74-80 | the array built by adding one over each box's slice has the extent as its length, and each entry is the number of boxes whose `[start, end)` contains that position |
| Projection.AddSlice | pero_ocr/layout_engines/xy_cut.py:79 | `res[start:end] += 1` adds one at every position of the slice and leaves every other entry as it was |
| Projection.CoveragePrefix | pero_ocr/layout_engines/xy_cut.py:78-79 | one more box raises the count by one exactly at the positions it covers |
| Projection.CoverageOfPermuted | pero_ocr/layout_engines/xy_cut.py:139-142 | the coverage count does not depend on the order of the boxes |
| Projection.ExtentOfPermuted | pero_ocr/layout_engines/xy_cut.py:139-142 | the histogram length does not depend on the order of the boxes |
| Projection.ProfileOfPermuted | pero_ocr/layout_engines/xy_cut.py:139-142 | projecting the sorted boxes gives the same histogram as projecting the unsorted ones |
| ProfileSplit.WhereFrom | pero_ocr/layout_engines/xy_cut.py:106 | scanning from `from` finds at most one position per remaining entry; what it finds is characterised by `WhereFromSound` and `WhereFromComplete` |
| ProfileSplit.Where | pero_ocr/layout_engines/xy_cut.py:106 | `np.where` finds at most one position per entry; what it finds is characterised by `WhereSound` and `WhereComplete` |
| ProfileSplit.WhereFromSound | pero_ocr/layout_engines/xy_cut.py:106 | every position found from `from` on lies at or after `from`, is inside the array, is above the threshold, and the positions are strictly ascending |
| ProfileSplit.WhereSound | pero_ocr/layout_engines/xy_cut.py:106 | every position `np.where(values > threshold)` returns is above the threshold, and the positions are strictly ascending |
| ProfileSplit.WhereFromComplete | pero_ocr/layout_engines/xy_cut.py:106 | every position from `from` on whose value is above the threshold is found |
| ProfileSplit.WhereComplete | pero_ocr/layout_engines/xy_cut.py:106 | every position whose value is above the threshold is found |
| ProfileSplit.SplitProjectionProfile | pero_ocr/layout_engines/xy_cut.py:106-124 | the split is `None` exactly when no entry is above `min_value` |
| ProfileSplit.RunStarts | pero_ocr/layout_engines/xy_cut.py:116-120 | there is one start more than there are cuts; start k is the first active position of run k |
| ProfileSplit.RunEnds | pero_ocr/layout_engines/xy_cut.py:115-122 | there is one end more than there are cuts; end k is the last active position of run k plus one |
| ProfileSplit.SplitParts | pero_ocr/layout_engines/xy_cut.py:106-122 | a split's runs are built from exactly the active positions and exactly the indices where the gap exceeds `min_gap`; there is one run more than there are cuts |
| ProfileSplit.WhereActive | pero_ocr/layout_engines/xy_cut.py:106 | `np.where` yields exactly the active positions, ascending |
| ProfileSplit.WhereCuts | pero_ocr/layout_engines/xy_cut.py:113-114 | the cut indices ascend, lie below the last active index, and are exactly those after which the next active position is more than `min_gap` away |
| ProfileSplit.SplitShape | pero_ocr/layout_engines/xy_cut.py:113-122 | starts and ends pair up, one pair per cut plus one; both strictly ascend; every run is non-empty and inside the array; each run ends no later than the next begins; the first run starts at the first active position and the last ends one past the last active position, with nothing active outside |
| ProfileSplit.SplitCovers | pero_ocr/layout_engines/xy_cut.py:106-122 | the first and last position of every run are active, and every active position lies in some run |
| ProfileSplit.SplitRunOf | pero_ocr/layout_engines/xy_cut.py:106-122 | names the run that holds a given active position (unique, since the runs are disjoint) |
| ProfileSplit.SplitGaps | pero_ocr/layout_engines/xy_cut.py:113-122 | consecutive active positions inside a run are at most `min_gap` apart; the last active position of run k and the first of run k + 1 are more than `min_gap` apart; nothing in between is active |
| ProfileSplit.SplitRunsSolid | pero_ocr/layout_engines/xy_cut.py:113-122 | with `min_gap` at most 1, every position of a run is active, so runs are maximal active stretches |
| ProfileSplit.SplitRunBorders | pero_ocr/layout_engines/xy_cut.py:113-122 | with `min_gap` at least 1, the position before each run start is inactive, and each run end but the last is an inactive position before the next run |
| ProfileSplit.LoHi | pero_ocr/layout_engines/xy_cut.py:115-121 | every run's bounds lie inside the active index, and an earlier run ends before a later one begins |
| ProfileSplit.FindRun | pero_ocr/layout_engines/xy_cut.py:115-121 | every index into the active positions lies within the bounds of some run |
| ProfileSplit.NoCutInsideRun | pero_ocr/layout_engines/xy_cut.py:113-116 | inside one run, no gap between consecutive active positions exceeds `min_gap` |
| Sorting.ArgSort | pero_ocr/layout_engines/xy_cut.py:138 | `argsort` returns a permutation of the positions of the keys, in ascending key order (ties in any order) |
| Sorting.InsertionPoint | pero_ocr/layout_engines/xy_cut.py:138 | the place for a new position in a key-sorted list: after every entry whose key is not larger, before every entry whose key is larger |
| Sorting.InsertSorted | pero_ocr/layout_engines/xy_cut.py:138 | inserting at that place keeps the list sorted by key |
| Sorting.InsertPermutation | pero_ocr/layout_engines/xy_cut.py:138 | inserting the next position into a permutation of the earlier ones gives a permutation of one more |
| Indexing.GatherPermutation | pero_ocr/layout_engines/xy_cut.py:139-140 | indexing an array by a permutation of its positions (`boxes[_indices]`) keeps exactly its elements, each as often |
| Indexing.GatherZip | pero_ocr/layout_engines/xy_cut.py:139-140 | indexing the boxes and the indices by the same order pairs them as indexing the pairs does |
| XyCut.SortOn | pero_ocr/layout_engines/xy_cut.py:138-140 | the boxes and indices reordered by `argsort` on one axis are sorted by the start on that axis, hold the same boxes, the same indices and the same (box, index) pairs |
| Selection.Select | pero_ocr/layout_engines/xy_cut.py:151-154 | a mask never makes the array longer |
| Selection.SelectLength | pero_ocr/layout_engines/xy_cut.py:153-154 | the same mask applied to the boxes and to the indices keeps them the same length |
| Selection.SelectMember | pero_ocr/layout_engines/xy_cut.py:151-153 | a box is selected exactly when it is present and its start lies in `[lo, hi)` |
| Selection.SelectSub | pero_ocr/layout_engines/xy_cut.py:153-154 | a selection holds each element at most as often as the input does |
| Selection.SelectSplit | pero_ocr/layout_engines/xy_cut.py:148-154 | adjacent half-open ranges partition what their union selects |
| Selection.SelectAll | pero_ocr/layout_engines/xy_cut.py:151-154 | a range that holds every start selects everything, in order |
| Selection.SelectNone | pero_ocr/layout_engines/xy_cut.py:151-154 | a range that holds no start selects nothing |
| Selection.SelectEmptyRange | pero_ocr/layout_engines/xy_cut.py:151-154 | an empty range selects nothing |
| Selection.SelectZip | pero_ocr/layout_engines/xy_cut.py:153-154 | masking boxes and indices separately pairs them as masking the pairs does |
| Selection.SelectPairs | pero_ocr/layout_engines/xy_cut.py:153-154 | every (box, index) pair of a masked chunk was a pair of the input |
| Selection.SelectSorted | pero_ocr/layout_engines/xy_cut.py:153 | masking keeps the order, so boxes sorted on an axis stay sorted |
| Selection.SelectCount | pero_ocr/layout_engines/xy_cut.py:151-154 | a mask keeps each box as often as the input holds it when its start is in range, and drops it otherwise |
| Selection.SelectPermuted | pero_ocr/layout_engines/xy_cut.py:151-158 | masking a reordered copy selects a reordering of what masking the original selects |
| Selection.SelectKeeps | pero_ocr/layout_engines/xy_cut.py:151-153 | a selected box is an input box whose start is in range, and non-negative or well-formed inputs stay so |
| Selection.SelectSmaller | pero_ocr/layout_engines/xy_cut.py:176-180 | a box whose start falls outside the range makes the selection strictly shorter than the input |
| Selection.SelectNonEmpty | pero_ocr/layout_engines/xy_cut.py:151-154 | a box whose start falls inside the range makes the selection non-empty |
| Bands.SplitOfSplits | pero_ocr/layout_engines/xy_cut.py:142-143 | the split stated for whatever equals the profile and the split of the boxes' profile are the same statement |
| Bands.CoveredActive | pero_ocr/layout_engines/xy_cut.py:106 | a position some box covers is active with threshold 0 |
| Bands.ActiveCover | pero_ocr/layout_engines/xy_cut.py:106 | an active position is covered by some box |
| Bands.InactiveEmpty | pero_ocr/layout_engines/xy_cut.py:106 | a line is covered by no box exactly when it is inactive |
| Bands.SplitNoneIff | pero_ocr/layout_engines/xy_cut.py:142-145 | the split of the boxes' projection is `None` exactly when no box has positive extent on that axis |
| Bands.RunMember | pero_ocr/layout_engines/xy_cut.py:113-122 | a box covering a position of run k starts and ends within run k |
| Bands.RunStartBox | pero_ocr/layout_engines/xy_cut.py:116-120 | every run begins exactly where some box begins |
| Bands.RunSolid | pero_ocr/layout_engines/xy_cut.py:113-122 | every position of a run is covered by a box that starts within the run |
| Bands.BoxRun | pero_ocr/layout_engines/xy_cut.py:113-122 | a box of positive extent starts and ends within one run |
| Bands.BeforeRun | pero_ocr/layout_engines/xy_cut.py:113-122 | a box of positive extent that starts before run k ends within the runs before it |
| Bands.NoGapInRun | pero_ocr/layout_engines/xy_cut.py:113-122 | two boxes starting in one run are never separated by an uncovered line |
| Bands.AcrossGapSubset | pero_ocr/layout_engines/xy_cut.py:151-154 | a line uncovered in a set of boxes is uncovered in every subset |
| Bands.SameMembers | pero_ocr/layout_engines/xy_cut.py:138-140 | whether a box set is flat, and whether it is separated, depends only on which boxes it holds |
| Bands.SeveralRunsSeparated | pero_ocr/layout_engines/xy_cut.py:162-172 | two columns or more mean some box lies wholly left of another across an uncovered column |
| Bands.FirstGap | pero_ocr/layout_engines/xy_cut.py:121-122 | with two runs or more, the end of the first run is an uncovered line before the second run |
| Bands.BoxesAcrossRuns | pero_ocr/layout_engines/xy_cut.py:113-122 | a box of positive extent in run i lies wholly before every box starting in a later run, across the uncovered line that ends run i |
| Bands.SeparatedSeveralRuns | pero_ocr/layout_engines/xy_cut.py:162-172 | when every box has positive extent, a box lying wholly left of another across an uncovered column means two columns or more |
| Bands.RunBounds | pero_ocr/layout_engines/xy_cut.py:120-122 | every run starts no earlier than where the runs before it end, and ends after it starts |
| Bands.RunsPartition | pero_ocr/layout_engines/xy_cut.py:148-154 | what starts below the end of run k is what starts before the gap, plus what starts in the gap, plus what starts in run k |
| Bands.BetweenRunsEmpty | pero_ocr/layout_engines/xy_cut.py:148-154 | no box of positive extent starts in a gap between runs or before the first run |
| Bands.RunsCoverAll | pero_ocr/layout_engines/xy_cut.py:148-154 | every box of positive extent starts before the end of the last run, so the runs together select everything |
| Bands.RunLinesCovered | pero_ocr/layout_engines/xy_cut.py:151-154 | the boxes selected for a band cover every row of that band |
| Bands.RunCount | pero_ocr/layout_engines/xy_cut.py:120-122 | a split has equally many starts and ends, and at least one run |
| Bands.RunNonEmpty | pero_ocr/layout_engines/xy_cut.py:151-154 | the band or column selected for a run is never empty, whatever the boxes |
| Bands.RunSmaller | pero_ocr/layout_engines/xy_cut.py:175-181 | with two columns or more, each column's selection is strictly smaller than the band, so the recursion terminates |
| Bands.RunSelected | pero_ocr/layout_engines/xy_cut.py:151-153 | a box of positive extent selected for band k also ends within band k |
| ReadingOrder.Copied | pero_ocr/layout_engines/xy_cut.py:138-142 | a sorted copy has the same boxes, the same pairs and the same projection as the input |
| ReadingOrder.Lift | pero_ocr/layout_engines/xy_cut.py:138-140 | what the cut emits for the sorted copy it emits for the input: the same pairs, and the same order properties |
| ReadingOrder.NoSplitIllFormed | pero_ocr/layout_engines/xy_cut.py:144-145 | a `None` split means that some box has no positive extent |
| ReadingOrder.OneRun | pero_ocr/layout_engines/xy_cut.py:171 | `res.extend(chunk)` keeps the old list as a prefix and pairs each new index with its box |
| ReadingOrder.RunPieces | pero_ocr/layout_engines/xy_cut.py:151-154 | the selections of a run are parallel, non-empty and no larger than the input, and they keep the boxes non-negative and well-formed |
| ReadingOrder.BandTopDown | pero_ocr/layout_engines/xy_cut.py:151-172 | inside a band, whose rows are all covered, no box lies above another across an empty row |
| ReadingOrder.SingleRunOrder | pero_ocr/layout_engines/xy_cut.py:167-171 | in a band with one column, no box lies right of another across an empty column, so appending in `y0` order keeps the left-to-right property |
| ReadingOrder.SingleRunPair | pero_ocr/layout_engines/xy_cut.py:167-171 | in a band with one column, no two boxes of positive extent are separated by an empty column |
| ReadingOrder.AppendStep | pero_ocr/layout_engines/xy_cut.py:179-181 | appending one call's output to the list keeps the old prefix and the pairing |
| ReadingOrder.MultisetStep | pero_ocr/layout_engines/xy_cut.py:148-154 | what one band or column contributes stays within what starts before the end of its run |
| ReadingOrder.MultisetStepExact | pero_ocr/layout_engines/xy_cut.py:148-154 | for boxes of positive extent, the contributions add up exactly to what starts before the end of each run |
| ReadingOrder.MultisetDone | pero_ocr/layout_engines/xy_cut.py:148-154 | after the last run, nothing more than the input has come out |
| ReadingOrder.MultisetDoneExact | pero_ocr/layout_engines/xy_cut.py:148-154 | for boxes of positive extent, after the last run exactly the input has come out |
| ReadingOrder.BandOrderStep | pero_ocr/layout_engines/xy_cut.py:148-172 | bands come out top to bottom: appending band k after the earlier bands keeps top-down order, and left-right order for boxes sharing a row |
| ReadingOrder.LaterRunOutside | pero_ocr/layout_engines/xy_cut.py:151-154 | no box selected for a later run belongs to an earlier run's selection |
| ReadingOrder.EarlierOutside | pero_ocr/layout_engines/xy_cut.py:151-154 | no box starting before the end of the runs before run k belongs to run k's selection |
| ReadingOrder.BandsOrderedStep | pero_ocr/layout_engines/xy_cut.py:148-172 | appending band k's output keeps every earlier band in band order and puts band k in band order |
| ReadingOrder.ColumnsOrderedStep | pero_ocr/layout_engines/xy_cut.py:175-181 | appending column d's output keeps every earlier column in reading order and puts column d in reading order |
| ReadingOrder.ColumnsBandOrdered | pero_ocr/layout_engines/xy_cut.py:166-181 | a band of two columns or more whose output is left to right, with each column in reading order, is in band order |
| ReadingOrder.OneColumnBandOrdered | pero_ocr/layout_engines/xy_cut.py:167-172 | a one-column band of boxes of positive size, emitted in `y0` order as received, is in band order |
| ReadingOrder.ColumnOrderStep | pero_ocr/layout_engines/xy_cut.py:175-181 | columns come out left to right: appending column d after the earlier columns keeps left-to-right order |
| ReadingOrder.BandsStart | pero_ocr/layout_engines/xy_cut.py:148 | the band-loop invariant holds before the first band |
| ReadingOrder.BandStep | pero_ocr/layout_engines/xy_cut.py:148-172 | one pass of the band loop keeps its invariant: prefix, pairing, multiset bound, top-down and left-right order, and band order of every band so far |
| ReadingOrder.BandsEnd | pero_ocr/layout_engines/xy_cut.py:148-172 | after the last band, the output is drawn from the input, a permutation of it for boxes of positive size, and the region is `XyOrdered` |
| ReadingOrder.ColumnsStart | pero_ocr/layout_engines/xy_cut.py:175 | the column-loop invariant holds before the first column |
| ReadingOrder.ColumnStep | pero_ocr/layout_engines/xy_cut.py:175-181 | one pass of the column loop keeps its invariant: prefix, pairing, multiset bound, left-to-right order, and reading order of every column so far |
| ReadingOrder.ColumnsEnd | pero_ocr/layout_engines/xy_cut.py:175-181 | after the last column, the output is drawn from the band, and is a permutation of it for boxes of positive size |
| XyCut.RecursiveXyCut | pero_ocr/layout_engines/xy_cut.py:127-181 | appends only to `res`; each new index comes from `indices` with its box, and none more often than it occurs in `indices`; appends nothing when no box has positive height; for boxes of positive size, appends a permutation of `indices` that is top down, left to right within a row, and `XyOrdered` (bands, then columns, then recursively) |
| XyCut.CutBands | pero_ocr/layout_engines/xy_cut.py:147-181 | the band loop over boxes sorted by `y0` appends only; its output is drawn from the sorted input, and for boxes of positive size is a permutation of it, top down and `XyOrdered` |
| XyCut.BandPass | pero_ocr/layout_engines/xy_cut.py:148-181 | one band keeps the band-loop invariant |
| XyCut.CutBand | pero_ocr/layout_engines/xy_cut.py:151-181 | a band, received in `y0` order, appends nothing when no box has positive width; appends the band's indices in that `y0` order when its boxes are not separated by an empty column; its output is drawn from the band, and for boxes of positive size is a permutation of it, top down, left to right and in band order |
| XyCut.CutColumns | pero_ocr/layout_engines/xy_cut.py:166-181 | the column loop appends only; its output is drawn from the band, and for boxes of positive size is a permutation of it, left to right, with every column in reading order |
| XyCut.ColumnPass | pero_ocr/layout_engines/xy_cut.py:175-181 | one column, cut recursively, keeps the column-loop invariant |
| XyOrder.BandsInOrder | pero_ocr/layout_engines/xy_cut.py:147-181 | in reading order, every box of an earlier band comes out before every box of a later band |
| XyOrder.ColumnsInOrder | pero_ocr/layout_engines/xy_cut.py:175-181 | in reading order, within a band of several columns, every box of an earlier column comes out before every box of a later column |
| XyOrder.ColumnTopDown | pero_ocr/layout_engines/xy_cut.py:167-172 | in reading order, the boxes of a one-column band come out by ascending `y0` |
| XyOrder.ColumnXyOrdered | pero_ocr/layout_engines/xy_cut.py:175-181 | in reading order, each column of a band of several columns is itself in reading order |
| XyOrder.GapOrder | pero_ocr/layout_engines/xy_cut.py:147-181 | of two listed boxes, one lying wholly before the other across an uncovered line comes out first |
| XyOrder.SplitOfUnique | pero_ocr/layout_engines/xy_cut.py:142-143 | a box set has one split on each axis |
| XyOrder.SplitOfPermuted | pero_ocr/layout_engines/xy_cut.py:138-143 | reordering the boxes does not change their split |
| XyOrder.MembersOfPermuted | pero_ocr/layout_engines/xy_cut.py:138-140 | a reordered copy holds the same boxes |
| XyOrder.InOrderSame | pero_ocr/layout_engines/xy_cut.py:138-140 | whether listed boxes are in order across empty lines depends only on which boxes the region holds |
| XyOrder.XyOrderedPermuted | pero_ocr/layout_engines/xy_cut.py:138-140 | the reading order of a region does not depend on the order in which its boxes are given |
| XyOrder.BandOrderedPermuted | pero_ocr/layout_engines/xy_cut.py:156-158 | the band order of a band does not depend on the order in which its boxes are given |
| XyOrder.InOrderJoin | pero_ocr/layout_engines/xy_cut.py:171-181 | output of other regions, before or after a region's own, keeps the region's order across empty lines |
| XyOrder.SortedInJoin | pero_ocr/layout_engines/xy_cut.py:171-181 | output of other regions, before or after a region's own, keeps the region's `y0` order |
| XyOrder.XyOrderedJoin | pero_ocr/layout_engines/xy_cut.py:171-181 | output of other regions, before or after a region's own, keeps the region in reading order |
| XyOrder.BandOrderedJoin | pero_ocr/layout_engines/xy_cut.py:171-181 | output of other regions, before or after a band's own, keeps the band in band order |

## Left out

- `XYCutRegionSorter.__init__` and `process_page` (lines 8-57) are not modelled. They depend on the page-layout classes, the configuration reader and the category split/merge helpers, and none of these is part of this model.
  - They build the boxes from polygons with floating-point `floor`/`ceil` (lines 28-34).
  - They catch and print an exception from the cut (lines 41-45).
  - Their fallback to the original order is taken only when `res` is empty (line 48). A non-empty but short `res` silently drops regions (line 52). The model shows when output can be short: boxes that are not of positive size.
- `user_scripts/xml_to_markdown.py` is file and XML I/O, and is not part of this model.
- Negative coordinates and an empty box set are excluded by preconditions (`NonNegative`, `|boxes| > 0`) rather than modelled. On them numpy slicing wraps around (line 79) and `np.max` of an empty array raises (line 75).
- Projection.ProjectionByBboxes: requires the axis to be 0 or 1 where the source raises `AssertionError` (line 74).
- XyCut.RecursiveXyCut: requires equal lengths where the source raises `AssertionError` (line 136).
- The thresholds `min_value` and `min_gap` are typed `float` in the source, but every call passes the integers 0 and 1. The model takes them as `int`. For integer values `v > t` is the same test for any threshold `t` with the same floor, so nothing is lost at the call sites.
- Sorting.ArgSort: fixes no order among equal keys, because numpy's default sort is not stable. No property of the model depends on tie order.
- XyCut.RecursiveXyCut: the ordering contracts are stated for boxes of positive width and height only. For degenerate boxes the model promises only the prefix, the pairing and the multiset bound.
- XyCut.RecursiveXyCut: `XyOrdered` fixes the order of bands, of columns within a band, of boxes within a one-column band by `y0`, and recursively within each column. It does not fix the order of boxes with equal `y0` in a one-column band, because numpy's default sort is not stable.
- XyCut.RecursiveXyCut: `BandOrdered` constrains a column only when it is smaller than its band. That is always so for boxes of positive width. The ordering contracts are stated for such boxes only.
- XyCut.CutBand: the single-column result (`res == res0 + indices`) is stated for bands whose boxes are not all flat and are not separated by an uncovered column. That is the box-level reading of "the x-split has exactly one run". A one-column band in which a box of zero width lies left of another box across an uncovered column is not covered by that clause.
- The shared, aliased `res` list is modelled as a sequence passed in and returned extended. Because the source only ever appends to it, the two are equivalent.
