/**
 * What a split of a box set's projection profile says about the boxes
 * themselves, with the cut's fixed thresholds: a position is active when at
 * least one box covers it, and any uncovered position separates two runs.
 * Axis 1 runs give the horizontal bands of the page, axis 0 runs the
 * columns of a band.
 */
module Bands {
  import opened Wrappers
  import opened Boxes
  import opened Projection
  import opened ProfileSplit
  import opened Selection

  /** `split_projection_profile(projection_by_bboxes(boxes, axis), 0, 1)`. */
  function Splits(boxes: seq<Box>, axis: int): Option<(seq<int>, seq<int>)>
    requires |boxes| > 0 && NonNegative(boxes)
  {
    SplitProjectionProfile(Profile(boxes, axis), 0, 1)
  }

  /** `h` is the projection profile of the boxes on `axis`. */
  ghost predicate ProfileIs(boxes: seq<Box>, axis: int, h: seq<int>)
  {
    |boxes| > 0 && NonNegative(boxes) && h == Profile(boxes, axis)
  }

  /**
   * Splitting the projection profile of the boxes on `axis` with the cut's
   * thresholds gives the runs `(starts, ends)`, that is `Splits(boxes, axis)
   * == Some((starts, ends))`; stated of every `h` that is the profile, so
   * that the split is unfolded only where a lemma names the profile.
   */
  ghost predicate SplitOf(boxes: seq<Box>, axis: int, starts: seq<int>, ends: seq<int>)
  {
    |boxes| > 0 && NonNegative(boxes) && |starts| == |ends| &&
    forall h :: ProfileIs(boxes, axis, h) ==> SplitProjectionProfile(h, 0, 1) == Some((starts, ends))
  }

  /** The profile-level statement of a split and the box-level one agree. */
  lemma SplitOfSplits(boxes: seq<Box>, axis: int, starts: seq<int>, ends: seq<int>)
    requires |boxes| > 0 && NonNegative(boxes)
    ensures SplitOf(boxes, axis, starts, ends) <==> Splits(boxes, axis) == Some((starts, ends))
  {
    assert ProfileIs(boxes, axis, Profile(boxes, axis));
    if Splits(boxes, axis) == Some((starts, ends)) {
      SplitShape(Profile(boxes, axis), 0, 1, starts, ends);
    }
  }

  /** No box covers line `p` on `axis` (an empty row for axis 1, an empty column for axis 0). */
  ghost predicate LineEmpty(boxes: seq<Box>, axis: int, p: int)
  {
    forall b :: b in boxes ==> !Covers(b, axis, p)
  }

  /** `a` lies wholly before `b` on `axis`, with a line between them that no box covers. */
  ghost predicate AcrossGap(boxes: seq<Box>, axis: int, a: Box, b: Box)
  {
    exists g :: End(a, axis) <= g < Start(b, axis) && LineEmpty(boxes, axis, g)
  }

  /** The extents of `a` and `b` on `axis` share a position. */
  predicate Overlap(a: Box, b: Box, axis: int)
  {
    Start(a, axis) < End(b, axis) && Start(b, axis) < End(a, axis)
  }

  lemma CoveredActive(boxes: seq<Box>, axis: int, b: Box, p: int)
    requires |boxes| > 0 && NonNegative(boxes)
    requires b in boxes && Covers(b, axis, p)
    ensures Active(Profile(boxes, axis), 0, p)
  {
    assert 0 <= Start(b, axis);
    assert End(b, axis) <= Extent(boxes, axis);
  }

  lemma ActiveCover(boxes: seq<Box>, axis: int, p: int) returns (b: Box)
    requires |boxes| > 0 && NonNegative(boxes)
    requires Active(Profile(boxes, axis), 0, p)
    ensures b in boxes && Covers(b, axis, p)
  {
    assert Coverage(boxes, axis, p) != 0;
    b :| b in boxes && Covers(b, axis, p);
  }

  /** A line that no box covers is inactive, and an active line is covered. */
  lemma InactiveEmpty(boxes: seq<Box>, axis: int, p: int)
    requires |boxes| > 0 && NonNegative(boxes)
    ensures LineEmpty(boxes, axis, p) <==> !Active(Profile(boxes, axis), 0, p)
  {
    if !LineEmpty(boxes, axis, p) {
      var b :| b in boxes && Covers(b, axis, p);
      CoveredActive(boxes, axis, b, p);
    }
    if Active(Profile(boxes, axis), 0, p) {
      var b := ActiveCover(boxes, axis, p);
    }
  }

  /** No box has positive extent on `axis`. */
  predicate Flat(boxes: seq<Box>, axis: int)
  {
    forall b :: b in boxes ==> End(b, axis) <= Start(b, axis)
  }

  /** Every box has positive extent on `axis`. */
  predicate Positive(boxes: seq<Box>, axis: int)
  {
    forall b :: b in boxes ==> Start(b, axis) < End(b, axis)
  }

  /** The split finds no run exactly when no box has positive extent. */
  lemma SplitNoneIff(boxes: seq<Box>, axis: int)
    requires |boxes| > 0 && NonNegative(boxes)
    ensures Splits(boxes, axis).None? <==> Flat(boxes, axis)
  {
    var h := Profile(boxes, axis);
    if Splits(boxes, axis).None? {
      forall b | b in boxes ensures End(b, axis) <= Start(b, axis) {
        if Start(b, axis) < End(b, axis) {
          CoveredActive(boxes, axis, b, Start(b, axis));
        }
      }
    } else {
      var p :| 0 <= p < |h| && h[p] > 0;
      assert Active(h, 0, p);
      var b := ActiveCover(boxes, axis, p);
    }
  }

  /** A box that covers a position of run k starts and ends within run k. */
  lemma RunMember(boxes: seq<Box>, axis: int, starts: seq<int>, ends: seq<int>, k: int, b: Box, p: int)
    requires |boxes| > 0 && NonNegative(boxes)
    requires Splits(boxes, axis) == Some((starts, ends))
    requires 0 <= k < |starts| && starts[k] <= p < ends[k]
    requires b in boxes && Covers(b, axis, p)
    ensures |starts| == |ends|
    ensures starts[k] <= Start(b, axis) && End(b, axis) <= ends[k]
  {
    var h := Profile(boxes, axis);
    SplitRunBorders(h, 0, 1, starts, ends);
    SplitShape(h, 0, 1, starts, ends);
    if Start(b, axis) < starts[k] {
      CoveredActive(boxes, axis, b, starts[k] - 1);
      assert false;
    }
    if ends[k] < End(b, axis) {
      CoveredActive(boxes, axis, b, ends[k]);
      assert false;
    }
  }

  /** Every run begins where some box begins: the band or column of a run is never empty. */
  lemma RunStartBox(boxes: seq<Box>, axis: int, starts: seq<int>, ends: seq<int>, k: int) returns (b: Box)
    requires |boxes| > 0 && NonNegative(boxes)
    requires Splits(boxes, axis) == Some((starts, ends))
    requires 0 <= k < |starts|
    ensures b in boxes && Start(b, axis) == starts[k]
  {
    var h := Profile(boxes, axis);
    SplitCovers(h, 0, 1, starts, ends);
    SplitShape(h, 0, 1, starts, ends);
    assert Active(h, 0, starts[k]);
    b := ActiveCover(boxes, axis, starts[k]);
    RunMember(boxes, axis, starts, ends, k, b, starts[k]);
  }

  /** Every position of a run is covered by a box that starts within that run. */
  lemma RunSolid(boxes: seq<Box>, axis: int, starts: seq<int>, ends: seq<int>, k: int, p: int) returns (b: Box)
    requires |boxes| > 0 && NonNegative(boxes)
    requires Splits(boxes, axis) == Some((starts, ends))
    requires 0 <= k < |starts| && starts[k] <= p < ends[k]
    ensures b in boxes && Covers(b, axis, p) && starts[k] <= Start(b, axis) < ends[k]
  {
    var h := Profile(boxes, axis);
    SplitRunsSolid(h, 0, 1, starts, ends);
    b := ActiveCover(boxes, axis, p);
    RunMember(boxes, axis, starts, ends, k, b, p);
  }

  /** A box of positive extent lies within one run. */
  lemma BoxRun(boxes: seq<Box>, axis: int, starts: seq<int>, ends: seq<int>, b: Box) returns (k: nat)
    requires |boxes| > 0 && NonNegative(boxes)
    requires Splits(boxes, axis) == Some((starts, ends))
    requires b in boxes && Start(b, axis) < End(b, axis)
    ensures k < |starts| == |ends| && starts[k] <= Start(b, axis) < ends[k] && End(b, axis) <= ends[k]
  {
    var h := Profile(boxes, axis);
    CoveredActive(boxes, axis, b, Start(b, axis));
    k := SplitRunOf(h, 0, 1, starts, ends, Start(b, axis));
    RunMember(boxes, axis, starts, ends, k, b, Start(b, axis));
  }

  /** A box of positive extent that starts before run k ends no later than run k - 1. */
  lemma BeforeRun(boxes: seq<Box>, axis: int, starts: seq<int>, ends: seq<int>, k: int, b: Box)
    requires |boxes| > 0 && NonNegative(boxes)
    requires Splits(boxes, axis) == Some((starts, ends))
    requires 0 <= k < |starts|
    requires b in boxes && Start(b, axis) < End(b, axis) && Start(b, axis) < starts[k]
    ensures 0 < k && End(b, axis) <= ends[k - 1]
  {
    var l := BoxRun(boxes, axis, starts, ends, b);
    SplitShape(Profile(boxes, axis), 0, 1, starts, ends);
    assert l < k;
    if l < k - 1 {
      assert ends[l] < ends[k - 1];
    }
  }

  /** Between two boxes that both start in run k there is no uncovered line. */
  lemma NoGapInRun(boxes: seq<Box>, axis: int, starts: seq<int>, ends: seq<int>, k: int, a: Box, b: Box)
    requires |boxes| > 0 && NonNegative(boxes)
    requires Splits(boxes, axis) == Some((starts, ends))
    requires 0 <= k < |starts|
    requires starts[k] <= Start(a, axis) < End(a, axis) && Start(b, axis) < ends[k]
    ensures !AcrossGap(boxes, axis, a, b)
  {
    if AcrossGap(boxes, axis, a, b) {
      var g :| End(a, axis) <= g < Start(b, axis) && LineEmpty(boxes, axis, g);
      var c := RunSolid(boxes, axis, starts, ends, k, g);
    }
  }

  /** A line empty in a set of boxes is empty in every subset. */
  lemma AcrossGapSubset(s: seq<Box>, t: seq<Box>, axis: int, a: Box, b: Box)
    requires forall c :: c in s ==> c in t
    ensures AcrossGap(t, axis, a, b) ==> AcrossGap(s, axis, a, b)
  {
    if AcrossGap(t, axis, a, b) {
      var g :| End(a, axis) <= g < Start(b, axis) && LineEmpty(t, axis, g);
      assert LineEmpty(s, axis, g);
    }
  }

  /** Some box lies wholly before another on `axis`, across a line no box covers. */
  ghost predicate Separated(boxes: seq<Box>, axis: int)
  {
    exists a, b :: a in boxes && b in boxes && AcrossGap(boxes, axis, a, b)
  }

  /** Flatness and separation depend only on which boxes there are. */
  lemma SameMembers(s: seq<Box>, t: seq<Box>, axis: int)
    requires forall c :: c in s <==> c in t
    ensures Flat(s, axis) <==> Flat(t, axis)
    ensures Separated(s, axis) <==> Separated(t, axis)
  {
    if Separated(s, axis) {
      var a, b :| a in s && b in s && AcrossGap(s, axis, a, b);
      AcrossGapSubset(t, s, axis, a, b);
    }
    if Separated(t, axis) {
      var a, b :| a in t && b in t && AcrossGap(t, axis, a, b);
      AcrossGapSubset(s, t, axis, a, b);
    }
  }

  /** Two runs or more: the first box of the first run lies before the box that starts the second, across an empty line. */
  lemma SeveralRunsSeparated(boxes: seq<Box>, axis: int, starts: seq<int>, ends: seq<int>)
    requires |boxes| > 0 && NonNegative(boxes)
    requires Splits(boxes, axis) == Some((starts, ends)) && |starts| >= 2
    ensures Separated(boxes, axis)
  {
    var g := FirstGap(boxes, axis, starts, ends);
    RunBounds(boxes, axis, starts, ends, 0);
    var a := RunSolid(boxes, axis, starts, ends, 0, starts[0]);
    RunMember(boxes, axis, starts, ends, 0, a, starts[0]);
    var b := RunStartBox(boxes, axis, starts, ends, 1);
    assert AcrossGap(boxes, axis, a, b);
  }

  /** With two runs or more, the end of the first run is an uncovered line before the second. */
  lemma FirstGap(boxes: seq<Box>, axis: int, starts: seq<int>, ends: seq<int>) returns (g: int)
    requires |boxes| > 0 && NonNegative(boxes)
    requires Splits(boxes, axis) == Some((starts, ends)) && |starts| >= 2
    ensures |ends| >= 2 && g == ends[0] < starts[1] && LineEmpty(boxes, axis, g)
  {
    var h := Profile(boxes, axis);
    SplitRunBorders(h, 0, 1, starts, ends);
    SplitShape(h, 0, 1, starts, ends);
    g := ends[0];
    InactiveEmpty(boxes, axis, g);
  }

  /** A box of positive extent in run i lies wholly before every box of a later run, across the empty line that ends run i. */
  lemma BoxesAcrossRuns(boxes: seq<Box>, axis: int, starts: seq<int>, ends: seq<int>, i: int, j: int, a: Box, b: Box)
    requires |boxes| > 0 && NonNegative(boxes)
    requires Splits(boxes, axis) == Some((starts, ends))
    requires 0 <= i < j < |starts|
    requires a in Select(boxes, boxes, axis, starts[i], ends[i]) && Start(a, axis) < End(a, axis)
    requires b in Select(boxes, boxes, axis, starts[j], ends[j])
    ensures AcrossGap(boxes, axis, a, b)
  {
    var h := Profile(boxes, axis);
    SplitRunBorders(h, 0, 1, starts, ends);
    SplitShape(h, 0, 1, starts, ends);
    RunSelected(boxes, axis, starts, ends, i, a);
    SelectMember(boxes, axis, starts[j], ends[j], b);
    InactiveEmpty(boxes, axis, ends[i]);
    assert ends[i] < starts[i + 1] <= starts[j];
    assert End(a, axis) <= ends[i] < Start(b, axis) && LineEmpty(boxes, axis, ends[i]);
  }

  /** When every box has positive extent, separated boxes lie in different runs, so there are two runs or more. */
  lemma SeparatedSeveralRuns(boxes: seq<Box>, axis: int, starts: seq<int>, ends: seq<int>)
    requires |boxes| > 0 && NonNegative(boxes) && Positive(boxes, axis)
    requires Splits(boxes, axis) == Some((starts, ends)) && Separated(boxes, axis)
    ensures |starts| >= 2
  {
    SplitShape(Profile(boxes, axis), 0, 1, starts, ends);
    var a, b :| a in boxes && b in boxes && AcrossGap(boxes, axis, a, b);
    var g :| End(a, axis) <= g < Start(b, axis) && LineEmpty(boxes, axis, g);
    var k := BoxRun(boxes, axis, starts, ends, a);
    var l := BoxRun(boxes, axis, starts, ends, b);
    if |starts| == 1 {
      var c := RunSolid(boxes, axis, starts, ends, 0, g);
    }
  }

  // ---------------------------------------------------------------------
  // The runs partition the boxes by where they start.

  /** Where the runs before run k end: 0 before the first run. */
  function Reach(ends: seq<int>, k: int): int
    requires 0 <= k <= |ends|
  {
    if k == 0 then 0 else ends[k - 1]
  }

  lemma RunBounds(bs: seq<Box>, axis: int, starts: seq<int>, ends: seq<int>, k: int)
    requires |bs| > 0 && NonNegative(bs)
    requires Splits(bs, axis) == Some((starts, ends))
    requires 0 <= k < |starts|
    ensures |starts| == |ends|
    ensures 0 <= Reach(ends, k) <= starts[k] < ends[k]
  {
    SplitShape(Profile(bs, axis), 0, 1, starts, ends);
    if k > 0 {
      assert ends[k - 1] <= starts[k];
    }
  }

  /** Run k, the gap before it and everything before that gap split what starts below the end of run k. */
  lemma RunsPartition<T>(bs: seq<Box>, vals: seq<T>, axis: int, starts: seq<int>, ends: seq<int>, k: int)
    requires |bs| == |vals| > 0 && NonNegative(bs)
    requires Splits(bs, axis) == Some((starts, ends))
    requires 0 <= k < |starts|
    ensures |starts| == |ends|
    ensures 0 <= Reach(ends, k) <= starts[k] < ends[k]
    ensures multiset(Select(bs, vals, axis, 0, ends[k])) ==
      multiset(Select(bs, vals, axis, 0, Reach(ends, k))) +
      multiset(Select(bs, vals, axis, Reach(ends, k), starts[k])) +
      multiset(Select(bs, vals, axis, starts[k], ends[k]))
  {
    RunBounds(bs, axis, starts, ends, k);
    SelectSplit(bs, vals, axis, 0, Reach(ends, k), ends[k]);
    SelectSplit(bs, vals, axis, Reach(ends, k), starts[k], ends[k]);
  }

  /** No box of positive extent starts in a gap between runs or before the first run. */
  lemma BetweenRunsEmpty<T>(bs: seq<Box>, vals: seq<T>, axis: int, starts: seq<int>, ends: seq<int>, k: int)
    requires |bs| == |vals| > 0 && NonNegative(bs) && Positive(bs, axis)
    requires Splits(bs, axis) == Some((starts, ends))
    requires 0 <= k < |starts|
    ensures Select(bs, vals, axis, Reach(ends, k), starts[k]) == []
  {
    forall b | b in bs ensures !InRange(b, axis, Reach(ends, k), starts[k]) {
      if Start(b, axis) < starts[k] {
        BeforeRun(bs, axis, starts, ends, k, b);
      }
    }
    SelectNone(bs, vals, axis, Reach(ends, k), starts[k]);
  }

  /** Every box of positive extent starts below the end of the last run. */
  lemma RunsCoverAll<T>(bs: seq<Box>, vals: seq<T>, axis: int, starts: seq<int>, ends: seq<int>)
    requires |bs| == |vals| > 0 && NonNegative(bs) && Positive(bs, axis)
    requires Splits(bs, axis) == Some((starts, ends))
    ensures |ends| > 0 && Select(bs, vals, axis, 0, ends[|ends| - 1]) == vals
  {
    SplitShape(Profile(bs, axis), 0, 1, starts, ends);
    forall b | b in bs ensures InRange(b, axis, 0, ends[|ends| - 1]) {
      var k := BoxRun(bs, axis, starts, ends, b);
      assert 0 <= Start(b, axis);
      if k < |ends| - 1 {
        assert ends[k] < ends[|ends| - 1];
      }
    }
    SelectAll(bs, vals, axis, 0, ends[|ends| - 1]);
  }

  /** The boxes selected for run k cover every line of that run. */
  lemma RunLinesCovered(bs: seq<Box>, axis: int, starts: seq<int>, ends: seq<int>, k: int)
    requires |bs| > 0 && NonNegative(bs)
    requires SplitOf(bs, axis, starts, ends)
    requires 0 <= k < |starts|
    ensures |starts| == |ends|
    ensures forall p :: starts[k] <= p < ends[k] ==> !LineEmpty(Select(bs, bs, axis, starts[k], ends[k]), axis, p)
  {
    SplitOfSplits(bs, axis, starts, ends);
    SplitShape(Profile(bs, axis), 0, 1, starts, ends);
    forall p | starts[k] <= p < ends[k] ensures !LineEmpty(Select(bs, bs, axis, starts[k], ends[k]), axis, p) {
      var b := RunSolid(bs, axis, starts, ends, k, p);
      SelectMember(bs, axis, starts[k], ends[k], b);
    }
  }

  lemma RunCount(bs: seq<Box>, axis: int, starts: seq<int>, ends: seq<int>)
    requires |bs| > 0 && NonNegative(bs)
    requires SplitOf(bs, axis, starts, ends)
    ensures |starts| == |ends| >= 1
  {
    SplitOfSplits(bs, axis, starts, ends);
    SplitShape(Profile(bs, axis), 0, 1, starts, ends);
  }

  /** The selection for a run is never empty. */
  lemma RunNonEmpty<T>(bs: seq<Box>, vals: seq<T>, axis: int, starts: seq<int>, ends: seq<int>, k: int)
    requires |bs| == |vals| > 0 && NonNegative(bs)
    requires Splits(bs, axis) == Some((starts, ends))
    requires 0 <= k < |starts|
    ensures 0 < |Select(bs, vals, axis, starts[k], ends[k])|
  {
    var b := RunStartBox(bs, axis, starts, ends, k);
    RunBounds(bs, axis, starts, ends, k);
    SelectNonEmpty(bs, vals, axis, starts[k], ends[k], b);
  }

  /** With two runs or more, the selection for one run leaves out the box that starts the other. */
  lemma RunSmaller<T>(bs: seq<Box>, vals: seq<T>, axis: int, starts: seq<int>, ends: seq<int>, k: int)
    requires |bs| == |vals| > 0 && NonNegative(bs)
    requires SplitOf(bs, axis, starts, ends)
    requires 0 <= k < |starts| && 2 <= |starts|
    ensures |Select(bs, vals, axis, starts[k], ends[k])| < |bs|
  {
    SplitOfSplits(bs, axis, starts, ends);
    var other := if k == 0 then 1 else 0;
    var b := RunStartBox(bs, axis, starts, ends, other);
    SplitShape(Profile(bs, axis), 0, 1, starts, ends);
    if other < k {
      assert ends[other] <= starts[k];
    } else {
      assert ends[k] <= starts[other];
    }
    SelectSmaller(bs, vals, axis, starts[k], ends[k], b);
  }

  /** A box of positive extent selected for run k also ends within run k. */
  lemma RunSelected(bs: seq<Box>, axis: int, starts: seq<int>, ends: seq<int>, k: int, b: Box)
    requires |bs| > 0 && NonNegative(bs)
    requires Splits(bs, axis) == Some((starts, ends))
    requires 0 <= k < |starts|
    requires b in Select(bs, bs, axis, starts[k], ends[k]) && Start(b, axis) < End(b, axis)
    ensures b in bs && starts[k] <= Start(b, axis) < ends[k] && End(b, axis) <= ends[k]
  {
    SelectMember(bs, axis, starts[k], ends[k], b);
    RunMember(bs, axis, starts, ends, k, b, Start(b, axis));
  }
}
