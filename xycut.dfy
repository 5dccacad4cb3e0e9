/**
 * The recursive XY-cut: sort the boxes by their top edge, split the
 * vertical projection into horizontal bands, and within each band sort by
 * the left edge and split the horizontal projection into columns. A band
 * with a single column is emitted in top-edge order; a band with several
 * columns is cut again, column by column. The shared output list is
 * threaded through the calls: each call receives it and returns it
 * extended. The ghost out-parameter `emitted` names the box behind each
 * appended index.
 */
module XyCut {
  import opened Wrappers
  import opened Boxes
  import opened Indexing
  import opened Sorting
  import opened Projection
  import opened ProfileSplit
  import opened Selection
  import opened Bands
  import opened XyOrder
  import opened ReadingOrder

  /**
   * `boxes[:, axis].argsort()` applied to the boxes and to the indices:
   * the same (box, index) pairs, ordered by the start on `axis`.
   */
  method SortOn(boxes: seq<Box>, indices: seq<int>, axis: int) returns (sb: seq<Box>, si: seq<int>)
    requires |boxes| == |indices|
    ensures |sb| == |si| == |boxes|
    ensures SortedOn(sb, axis)
    ensures multiset(Zip(sb, si)) == multiset(Zip(boxes, indices))
    ensures multiset(sb) == multiset(boxes) && multiset(si) == multiset(indices)
  {
    var keys := Keys(boxes, axis);
    var order := ArgSort(keys);
    sb, si := Gather(boxes, order), Gather(indices, order);
    GatherPermutation(boxes, order);
    GatherPermutation(indices, order);
    GatherPermutation(Zip(boxes, indices), order);
    GatherZip(boxes, indices, order);
    forall i, j | 0 <= i < j < |sb| ensures Start(sb[i], axis) <= Start(sb[j], axis) {
      assert keys[order[i]] <= keys[order[j]];
    }
  }


  /** `recursive_xy_cut(boxes, indices, res)`: appends to `res0` the indices of the boxes in reading order. */
  method RecursiveXyCut(boxes: seq<Box>, indices: seq<int>, res0: seq<int>) returns (res: seq<int>, ghost emitted: seq<Box>)
    requires |boxes| == |indices| > 0 && NonNegative(boxes)
    ensures Appended(boxes, indices, res0, res, emitted)
    ensures multiset(res[|res0|..]) <= multiset(indices)
    ensures Flat(boxes, 1) ==> res == res0
    ensures WellFormed(boxes) ==> multiset(res[|res0|..]) == multiset(indices)
    ensures WellFormed(boxes) ==> TopDown(boxes, emitted) && LeftRight(boxes, emitted)
    ensures WellFormed(boxes) ==> XyOrdered(boxes, emitted)
    decreases |boxes|, 5
  {
    var yb, yi := SortOn(boxes, indices, 1);
    Copied(boxes, indices, yb, yi, 1);
    var hist := ProjectionByBboxes(yb, 1);
    assert hist[..] == Profile(yb, 1);
    var pos := SplitProjectionProfile(hist[..], 0, 1);
    SplitNoneIff(yb, 1);
    SameMembers(yb, boxes, 1);
    if pos.None? {
      NoSplitIllFormed(boxes, yb, 1);
      return res0, [];
    }
    SplitOfSplits(yb, 1, pos.value.0, pos.value.1);
    res, emitted := CutBands(yb, yi, pos.value.0, pos.value.1, res0);
    Lift(boxes, indices, yb, yi, res0, res, emitted);
    if WellFormed(boxes) {
      XyOrderedPermuted(yb, boxes, emitted);
    }
  }

  /** The loop of `recursive_xy_cut` over the horizontal bands of the boxes sorted by their top edge. */
  method CutBands(yb: seq<Box>, yi: seq<int>, starts: seq<int>, ends: seq<int>, res0: seq<int>)
    returns (res: seq<int>, ghost emitted: seq<Box>)
    requires |yb| == |yi| > 0 && NonNegative(yb)
    requires SplitOf(yb, 1, starts, ends) && SortedOn(yb, 1)
    ensures Appended(yb, yi, res0, res, emitted)
    ensures multiset(res[|res0|..]) <= multiset(yi)
    ensures WellFormed(yb) ==> multiset(res[|res0|..]) == multiset(yi)
    ensures WellFormed(yb) ==> TopDown(yb, emitted) && LeftRight(yb, emitted)
    ensures WellFormed(yb) ==> XyOrdered(yb, emitted)
    decreases |yb|, 4
  {
    RunCount(yb, 1, starts, ends);
    res, emitted := res0, [];
    BandsStart(yb, yi, starts, ends, res0);
    var k := 0;
    while k < |starts|
      invariant 0 <= k <= |starts|
      invariant BandsDone(yb, yi, starts, ends, k, res0, res, emitted)
    {
      res, emitted := BandPass(yb, yi, starts, ends, k, res0, res, emitted);
      k := k + 1;
    }
    BandsEnd(yb, yi, starts, ends, res[|res0|..], emitted);
  }

  /** One pass of the band loop: cut the boxes whose top edge lies in band `k`. */
  method BandPass(yb: seq<Box>, yi: seq<int>, starts: seq<int>, ends: seq<int>, k: int,
                  ghost res0: seq<int>, res: seq<int>, ghost emitted: seq<Box>)
    returns (r: seq<int>, ghost em: seq<Box>)
    requires |yb| == |yi| && SplitOf(yb, 1, starts, ends) && SortedOn(yb, 1)
    requires 0 <= k < |starts| == |ends|
    requires BandsDone(yb, yi, starts, ends, k, res0, res, emitted)
    ensures BandsDone(yb, yi, starts, ends, k + 1, res0, r, em)
    decreases |yb|, 3
  {
    var bandB := Select(yb, yb, 1, starts[k], ends[k]);
    var bandI := Select(yb, yi, 1, starts[k], ends[k]);
    RunPieces(yb, yi, 1, starts, ends, k);
    RunLinesCovered(yb, 1, starts, ends, k);
    SelectSorted(yb, 1, starts[k], ends[k], 1);
    var out, e := CutBand(bandB, bandI, res, starts[k], ends[k]);
    BandStep(yb, yi, starts, ends, k, res0, res, emitted, out, e);
    r, em := out, emitted + e;
  }

  /**
   * The body of the band loop of `recursive_xy_cut` for one band. The
   * ghost bounds `lo` and `hi` are the band's run: every box starts in it
   * and no row of it is empty.
   */
  method CutBand(boxes: seq<Box>, indices: seq<int>, res0: seq<int>, ghost lo: int, ghost hi: int)
    returns (res: seq<int>, ghost emitted: seq<Box>)
    requires |boxes| == |indices| > 0 && NonNegative(boxes)
    requires forall b :: b in boxes ==> InRange(b, 1, lo, hi)
    requires forall r :: lo <= r < hi ==> !LineEmpty(boxes, 1, r)
    requires SortedOn(boxes, 1)
    ensures Appended(boxes, indices, res0, res, emitted)
    ensures multiset(res[|res0|..]) <= multiset(indices)
    ensures Flat(boxes, 0) ==> res == res0 && emitted == []
    ensures !Flat(boxes, 0) && !Separated(boxes, 0) ==> res == res0 + indices && emitted == boxes && SortedOn(emitted, 1)
    ensures WellFormed(boxes) ==> multiset(res[|res0|..]) == multiset(indices)
    ensures WellFormed(boxes) ==> TopDown(boxes, emitted) && LeftToRight(boxes, emitted)
    ensures WellFormed(boxes) ==> BandOrdered(boxes, emitted)
    decreases |boxes|, 2
  {
    var xb, xi := SortOn(boxes, indices, 0);
    Copied(boxes, indices, xb, xi, 0);
    var hist := ProjectionByBboxes(xb, 0);
    assert hist[..] == Profile(xb, 0);
    var pos := SplitProjectionProfile(hist[..], 0, 1);
    SplitNoneIff(xb, 0);
    SameMembers(xb, boxes, 0);
    if pos.None? {
      NoSplitIllFormed(boxes, xb, 0);
      return res0, [];
    }
    var starts, ends := pos.value.0, pos.value.1;
    SplitOfSplits(xb, 0, starts, ends);
    RunCount(xb, 0, starts, ends);
    if |starts| == 1 {
      res, emitted := res0 + indices, boxes;
      OneRun(boxes, indices, res0);
      if WellFormed(boxes) {
        SingleRunOrder(boxes, xb, starts, ends);
        BandTopDown(boxes, lo, hi, emitted);
        OneColumnBandOrdered(boxes, xb, starts, ends);
      }
      return;
    }
    SeveralRunsSeparated(xb, 0, starts, ends);
    res, emitted := CutColumns(xb, xi, starts, ends, res0);
    Lift(boxes, indices, xb, xi, res0, res, emitted);
    if WellFormed(boxes) {
      BandTopDown(boxes, lo, hi, emitted);
      ColumnsBandOrdered(xb, starts, ends, emitted);
      BandOrderedPermuted(xb, boxes, emitted);
    }
  }

  /** The loop of `recursive_xy_cut` over the columns of a band that has at least two. */
  method CutColumns(xb: seq<Box>, xi: seq<int>, starts: seq<int>, ends: seq<int>, res0: seq<int>)
    returns (res: seq<int>, ghost emitted: seq<Box>)
    requires |xb| == |xi| > 0 && NonNegative(xb)
    requires SplitOf(xb, 0, starts, ends) && |starts| >= 2
    ensures Appended(xb, xi, res0, res, emitted)
    ensures multiset(res[|res0|..]) <= multiset(xi)
    ensures WellFormed(xb) ==> multiset(res[|res0|..]) == multiset(xi)
    ensures WellFormed(xb) ==> LeftToRight(xb, emitted)
    ensures WellFormed(xb) ==> ColumnsOrdered(xb, starts, ends, |starts|, emitted)
    decreases |xb|, 1
  {
    RunCount(xb, 0, starts, ends);
    res, emitted := res0, [];
    ColumnsStart(xb, xi, starts, ends, res0);
    var d := 0;
    while d < |starts|
      invariant 0 <= d <= |starts|
      invariant ColumnsDone(xb, xi, starts, ends, d, res0, res, emitted)
    {
      res, emitted := ColumnPass(xb, xi, starts, ends, d, res0, res, emitted);
      d := d + 1;
    }
    ColumnsEnd(xb, xi, starts, ends, res[|res0|..]);
  }

  /** One pass of the column loop: `recursive_xy_cut` on the boxes whose left edge lies in column `d`. */
  method ColumnPass(xb: seq<Box>, xi: seq<int>, starts: seq<int>, ends: seq<int>, d: int,
                   ghost res0: seq<int>, res: seq<int>, ghost emitted: seq<Box>)
    returns (r: seq<int>, ghost em: seq<Box>)
    requires |xb| == |xi| && SplitOf(xb, 0, starts, ends)
    requires 0 <= d < |starts| == |ends| && |starts| >= 2
    requires ColumnsDone(xb, xi, starts, ends, d, res0, res, emitted)
    ensures ColumnsDone(xb, xi, starts, ends, d + 1, res0, r, em)
    decreases |xb|, 0
  {
    var colB := Select(xb, xb, 0, starts[d], ends[d]);
    var colI := Select(xb, xi, 0, starts[d], ends[d]);
    RunPieces(xb, xi, 0, starts, ends, d);
    RunSmaller(xb, xb, 0, starts, ends, d);
    var out, e := RecursiveXyCut(colB, colI, res);
    ColumnStep(xb, xi, starts, ends, d, res0, res, emitted, out, e);
    r, em := out, emitted + e;
  }
}
