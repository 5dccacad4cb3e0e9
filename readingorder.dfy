/**
 * What the XY-cut promises about its output, and the steps by which its
 * loops keep those promises: every index comes out paired with its box,
 * no box is lost (for boxes of positive size), bands come out top to
 * bottom and, within a band, columns left to right.
 */
module ReadingOrder {
  import opened Wrappers
  import opened Boxes
  import opened Indexing
  import opened Projection
  import opened ProfileSplit
  import opened Selection
  import opened Bands
  import opened XyOrder

  /**
   * `res` is `res0` followed by one index per emitted box; each new index
   * comes paired with its box in `bs`/`vals`.
   */
  ghost predicate Appended(bs: seq<Box>, vals: seq<int>, res0: seq<int>, res: seq<int>, emitted: seq<Box>)
    requires |bs| == |vals|
  {
    && |res| == |res0| + |emitted|
    && res[..|res0|] == res0
    && (forall u :: 0 <= u < |emitted| ==> (emitted[u], res[|res0| + u]) in Zip(bs, vals))
    && (forall u :: 0 <= u < |emitted| ==> emitted[u] in bs)
  }

  /** No box comes out after a box lying wholly below it across an empty row. */
  ghost predicate TopDown(boxes: seq<Box>, e: seq<Box>)
  {
    forall u, v :: 0 <= u < v < |e| ==> !AcrossGap(boxes, 1, e[v], e[u])
  }

  /** Of two boxes sharing a row, none comes out after a box lying wholly right of it across an empty column. */
  ghost predicate LeftRight(boxes: seq<Box>, e: seq<Box>)
  {
    forall u, v :: 0 <= u < v < |e| && Overlap(e[u], e[v], 1) ==> !AcrossGap(boxes, 0, e[v], e[u])
  }

  /** No box comes out after a box lying wholly right of it across an empty column. */
  ghost predicate LeftToRight(boxes: seq<Box>, e: seq<Box>)
  {
    forall u, v :: 0 <= u < v < |e| ==> !AcrossGap(boxes, 0, e[v], e[u])
  }

  /**
   * What the band loop has produced after the first `k` bands of `yb`: an
   * output paired with its boxes, drawn from the boxes starting above the
   * end of band k-1 (all of them, for boxes of positive size), each box
   * ending by then, in top-down, left-to-right order.
   */
  ghost predicate BandsDone(yb: seq<Box>, yi: seq<int>, starts: seq<int>, ends: seq<int>, k: int,
                            res0: seq<int>, res: seq<int>, emitted: seq<Box>)
    requires |yb| == |yi| && |starts| == |ends| && 0 <= k <= |ends|
  {
    && Appended(yb, yi, res0, res, emitted)
    && multiset(res[|res0|..]) <= multiset(Select(yb, yi, 1, 0, Reach(ends, k)))
    && (WellFormed(yb) ==> multiset(res[|res0|..]) == multiset(Select(yb, yi, 1, 0, Reach(ends, k))))
    && (WellFormed(yb) ==> forall u :: 0 <= u < |emitted| ==> End(emitted[u], 1) <= Reach(ends, k))
    && (WellFormed(yb) ==> TopDown(yb, emitted) && LeftRight(yb, emitted))
    && (WellFormed(yb) ==> BandsOrdered(yb, starts, ends, k, emitted))
  }

  /**
   * What the column loop has produced after the first `d` columns of `xb`:
   * an output paired with its boxes, drawn from the boxes starting left of
   * the end of column d-1 (all of them, for boxes of positive size), in
   * left-to-right order.
   */
  ghost predicate ColumnsDone(xb: seq<Box>, xi: seq<int>, starts: seq<int>, ends: seq<int>, d: int,
                              res0: seq<int>, res: seq<int>, emitted: seq<Box>)
    requires |xb| == |xi| && |starts| == |ends| && 0 <= d <= |ends|
  {
    && Appended(xb, xi, res0, res, emitted)
    && multiset(res[|res0|..]) <= multiset(Select(xb, xi, 0, 0, Reach(ends, d)))
    && (WellFormed(xb) ==> multiset(res[|res0|..]) == multiset(Select(xb, xi, 0, 0, Reach(ends, d))))
    && (WellFormed(xb) ==> forall u :: 0 <= u < |emitted| ==> Start(emitted[u], 0) < Reach(ends, d))
    && (WellFormed(xb) ==> LeftToRight(xb, emitted))
    && (WellFormed(xb) ==> ColumnsOrdered(xb, starts, ends, d, emitted))
  }

  /** Each of the first `k` bands of `yb` is in band order in `e`. */
  ghost predicate BandsOrdered(yb: seq<Box>, starts: seq<int>, ends: seq<int>, k: int, e: seq<Box>)
    requires |starts| == |ends| && 0 <= k <= |ends|
  {
    forall j {:trigger BandOrdered(Select(yb, yb, 1, starts[j], ends[j]), e)} ::
      0 <= j < k ==> BandOrdered(Select(yb, yb, 1, starts[j], ends[j]), e)
  }

  /** Each of the first `d` columns of `xb` is in reading order in `e`. */
  ghost predicate ColumnsOrdered(xb: seq<Box>, starts: seq<int>, ends: seq<int>, d: int, e: seq<Box>)
    requires |starts| == |ends| && 0 <= d <= |ends|
  {
    forall j {:trigger XyOrdered(Select(xb, xb, 0, starts[j], ends[j]), e)} ::
      0 <= j < d ==> XyOrdered(Select(xb, xb, 0, starts[j], ends[j]), e)
  }

  // ---------------------------------------------------------------------
  // Sorted copies.

  /** A sorted copy has the same boxes, the same pairs and the same projections. */
  lemma Copied(boxes: seq<Box>, indices: seq<int>, sb: seq<Box>, si: seq<int>, axis: int)
    requires |boxes| == |indices| > 0 && NonNegative(boxes)
    requires |sb| == |si| == |boxes|
    requires multiset(Zip(sb, si)) == multiset(Zip(boxes, indices)) && multiset(sb) == multiset(boxes)
    ensures NonNegative(sb) && Profile(sb, axis) == Profile(boxes, axis)
    ensures forall b :: b in sb <==> b in boxes
    ensures forall x :: x in Zip(sb, si) ==> x in Zip(boxes, indices)
    ensures WellFormed(boxes) ==> WellFormed(sb) && Positive(sb, 0) && Positive(sb, 1)
  {
    ProfileOfPermuted(boxes, sb, axis);
    forall b ensures b in sb <==> b in boxes {
      assert b in multiset(sb) <==> b in multiset(boxes);
    }
    forall x | x in Zip(sb, si) ensures x in Zip(boxes, indices) {
      assert x in multiset(Zip(sb, si));
    }
  }

  /** What a sorted copy emits, it emits for the input: the same pairs and boxes, the same empty lines. */
  lemma Lift(boxes: seq<Box>, indices: seq<int>, sb: seq<Box>, si: seq<int>, res0: seq<int>, res: seq<int>, emitted: seq<Box>)
    requires |boxes| == |indices| && |sb| == |si|
    requires forall b :: b in sb <==> b in boxes
    requires forall x :: x in Zip(sb, si) ==> x in Zip(boxes, indices)
    requires Appended(sb, si, res0, res, emitted)
    ensures Appended(boxes, indices, res0, res, emitted)
    ensures TopDown(sb, emitted) ==> TopDown(boxes, emitted)
    ensures LeftRight(sb, emitted) ==> LeftRight(boxes, emitted)
    ensures LeftToRight(sb, emitted) ==> LeftToRight(boxes, emitted)
  {
    forall u, v, axis | 0 <= u < |emitted| && 0 <= v < |emitted| && AcrossGap(boxes, axis, emitted[v], emitted[u])
      ensures AcrossGap(sb, axis, emitted[v], emitted[u])
    {
      AcrossGapSubset(sb, boxes, axis, emitted[v], emitted[u]);
    }
  }

  /** No run at all means some box is degenerate on the axis. */
  lemma NoSplitIllFormed(boxes: seq<Box>, sb: seq<Box>, axis: int)
    requires |sb| > 0 && NonNegative(sb) && Splits(sb, axis).None?
    requires forall b :: b in sb <==> b in boxes
    ensures !WellFormed(boxes)
  {
    SplitNoneIff(sb, axis);
    assert sb[0] in boxes;
  }

  /** A single run's indices are the whole input, in the order given. */
  lemma OneRun(boxes: seq<Box>, indices: seq<int>, res0: seq<int>)
    requires |boxes| == |indices|
    ensures Appended(boxes, indices, res0, res0 + indices, boxes)
    ensures (res0 + indices)[|res0|..] == indices
  {
    forall u | 0 <= u < |boxes| ensures (boxes[u], (res0 + indices)[|res0| + u]) in Zip(boxes, indices) {
      assert Zip(boxes, indices)[u] == (boxes[u], indices[u]);
    }
  }

  // ---------------------------------------------------------------------
  // One band or column.

  /** The band or column of run k: parallel, non-empty, no larger, every box starting in the run. */
  lemma RunPieces(bs: seq<Box>, vals: seq<int>, axis: int, starts: seq<int>, ends: seq<int>, k: int)
    requires |bs| == |vals| > 0 && NonNegative(bs)
    requires SplitOf(bs, axis, starts, ends)
    requires 0 <= k < |starts|
    ensures |Select(bs, bs, axis, starts[k], ends[k])| == |Select(bs, vals, axis, starts[k], ends[k])| > 0
    ensures |Select(bs, bs, axis, starts[k], ends[k])| <= |bs|
    ensures forall b :: b in Select(bs, bs, axis, starts[k], ends[k]) ==> b in bs && InRange(b, axis, starts[k], ends[k])
    ensures NonNegative(Select(bs, bs, axis, starts[k], ends[k]))
    ensures WellFormed(bs) ==> WellFormed(Select(bs, bs, axis, starts[k], ends[k]))
  {
    SplitOfSplits(bs, axis, starts, ends);
    SelectLength(bs, vals, axis, starts[k], ends[k]);
    RunNonEmpty(bs, vals, axis, starts, ends, k);
    SelectKeeps(bs, axis, starts[k], ends[k]);
  }

  /** In a band, whose rows are all covered, no box lies above another across an empty row. */
  lemma BandTopDown(boxes: seq<Box>, lo: int, hi: int, e: seq<Box>)
    requires WellFormed(boxes)
    requires forall b :: b in boxes ==> InRange(b, 1, lo, hi)
    requires forall r :: lo <= r < hi ==> !LineEmpty(boxes, 1, r)
    requires forall u :: 0 <= u < |e| ==> e[u] in boxes
    ensures TopDown(boxes, e)
  {
    forall u, v | 0 <= u < v < |e| ensures !AcrossGap(boxes, 1, e[v], e[u]) {
      assert InRange(e[v], 1, lo, hi) && InRange(e[u], 1, lo, hi);
    }
  }

  /** A band with one column: no box lies right of another across an empty column. */
  lemma SingleRunOrder(boxes: seq<Box>, xb: seq<Box>, starts: seq<int>, ends: seq<int>)
    requires WellFormed(boxes) && |xb| > 0 && NonNegative(xb)
    requires forall b :: b in xb <==> b in boxes
    requires Splits(xb, 0) == Some((starts, ends)) && |starts| == 1
    ensures LeftToRight(boxes, boxes)
  {
    forall u, v | 0 <= u < v < |boxes| ensures !AcrossGap(boxes, 0, boxes[v], boxes[u]) {
      SingleRunPair(boxes, xb, starts, ends, boxes[v], boxes[u]);
    }
  }

  lemma SingleRunPair(boxes: seq<Box>, xb: seq<Box>, starts: seq<int>, ends: seq<int>, a: Box, b: Box)
    requires |xb| > 0 && NonNegative(xb)
    requires forall c :: c in xb <==> c in boxes
    requires Splits(xb, 0) == Some((starts, ends)) && |starts| == 1
    requires a in boxes && b in boxes && Start(a, 0) < End(a, 0) && Start(b, 0) < End(b, 0)
    ensures !AcrossGap(boxes, 0, a, b)
  {
    var ka := BoxRun(xb, 0, starts, ends, a);
    var kb := BoxRun(xb, 0, starts, ends, b);
    NoGapInRun(xb, 0, starts, ends, 0, a, b);
    if AcrossGap(boxes, 0, a, b) {
      AcrossGapSubset(xb, boxes, 0, a, b);
    }
  }

  // ---------------------------------------------------------------------
  // One step of a loop.

  /** Appending one call's output keeps the prefix and pairs every new index with its box. */
  lemma AppendStep(bs: seq<Box>, vals: seq<int>, sbs: seq<Box>, svals: seq<int>,
                   res0: seq<int>, res: seq<int>, emitted: seq<Box>, r: seq<int>, em: seq<Box>)
    requires |bs| == |vals| && |sbs| == |svals|
    requires Appended(bs, vals, res0, res, emitted)
    requires Appended(sbs, svals, res, r, em)
    requires forall x :: x in Zip(sbs, svals) ==> x in Zip(bs, vals)
    requires forall b :: b in sbs ==> b in bs
    ensures Appended(bs, vals, res0, r, emitted + em)
    ensures r[|res0|..] == res[|res0|..] + r[|res|..]
  {
    assert r[..|res0|] == r[..|res|][..|res0|];
    forall u | 0 <= u < |emitted + em| ensures ((emitted + em)[u], r[|res0| + u]) in Zip(bs, vals) {
      if u < |emitted| {
        assert r[|res0| + u] == r[..|res|][|res0| + u];
      } else {
        assert (emitted + em)[u] == em[u - |emitted|];
      }
    }
    forall u | 0 <= u < |emitted + em| ensures (emitted + em)[u] in bs {
      if u >= |emitted| {
        assert (emitted + em)[u] == em[u - |emitted|];
      }
    }
  }

  /** What a band or column contributes stays within what starts below the end of its run. */
  lemma MultisetStep(bs: seq<Box>, vals: seq<int>, axis: int, starts: seq<int>, ends: seq<int>, k: int,
                     a: seq<int>, b: seq<int>)
    requires |bs| == |vals| > 0 && NonNegative(bs)
    requires Splits(bs, axis) == Some((starts, ends))
    requires 0 <= k < |starts| == |ends|
    requires multiset(a) <= multiset(Select(bs, vals, axis, 0, Reach(ends, k)))
    requires multiset(b) <= multiset(Select(bs, vals, axis, starts[k], ends[k]))
    ensures multiset(a + b) <= multiset(Select(bs, vals, axis, 0, Reach(ends, k + 1)))
  {
    RunsPartition(bs, vals, axis, starts, ends, k);
  }

  /** With boxes of positive extent, the gap before a run selects nothing, so the contributions add up exactly. */
  lemma MultisetStepExact(bs: seq<Box>, vals: seq<int>, axis: int, starts: seq<int>, ends: seq<int>, k: int,
                          a: seq<int>, b: seq<int>)
    requires |bs| == |vals| > 0 && NonNegative(bs) && Positive(bs, axis)
    requires Splits(bs, axis) == Some((starts, ends))
    requires 0 <= k < |starts| == |ends|
    requires multiset(a) == multiset(Select(bs, vals, axis, 0, Reach(ends, k)))
    requires multiset(b) == multiset(Select(bs, vals, axis, starts[k], ends[k]))
    ensures multiset(a + b) == multiset(Select(bs, vals, axis, 0, Reach(ends, k + 1)))
  {
    RunsPartition(bs, vals, axis, starts, ends, k);
    BetweenRunsEmpty(bs, vals, axis, starts, ends, k);
  }

  /** After the last run nothing more than the input has come out. */
  lemma MultisetDone(bs: seq<Box>, vals: seq<int>, axis: int, starts: seq<int>, ends: seq<int>, a: seq<int>)
    requires |bs| == |vals| > 0 && |starts| == |ends|
    requires multiset(a) <= multiset(Select(bs, vals, axis, 0, Reach(ends, |starts|)))
    ensures multiset(a) <= multiset(vals)
  {
    SelectSub(bs, vals, axis, 0, Reach(ends, |starts|));
  }

  /** With boxes of positive extent every box starts below the end of the last run, so all are emitted. */
  lemma MultisetDoneExact(bs: seq<Box>, vals: seq<int>, axis: int, starts: seq<int>, ends: seq<int>, a: seq<int>)
    requires |bs| == |vals| > 0 && NonNegative(bs) && Positive(bs, axis)
    requires Splits(bs, axis) == Some((starts, ends))
    requires |starts| == |ends|
    requires multiset(a) == multiset(Select(bs, vals, axis, 0, Reach(ends, |starts|)))
    ensures multiset(a) == multiset(vals)
  {
    RunsCoverAll(bs, vals, axis, starts, ends);
  }

  /** Bands come out top to bottom, and the boxes of one band stay in band order. */
  lemma BandOrderStep(yb: seq<Box>, starts: seq<int>, ends: seq<int>, k: int, before: seq<Box>, em: seq<Box>)
    requires |yb| > 0 && NonNegative(yb) && WellFormed(yb)
    requires Splits(yb, 1) == Some((starts, ends))
    requires 0 <= k < |starts| == |ends|
    requires forall u :: 0 <= u < |before| ==> before[u] in yb && End(before[u], 1) <= Reach(ends, k)
    requires TopDown(yb, before) && LeftRight(yb, before)
    requires forall v :: 0 <= v < |em| ==> em[v] in Select(yb, yb, 1, starts[k], ends[k])
    requires TopDown(Select(yb, yb, 1, starts[k], ends[k]), em) && LeftToRight(Select(yb, yb, 1, starts[k], ends[k]), em)
    ensures forall u :: 0 <= u < |before + em| ==> End((before + em)[u], 1) <= Reach(ends, k + 1)
    ensures TopDown(yb, before + em) && LeftRight(yb, before + em)
  {
    var band := Select(yb, yb, 1, starts[k], ends[k]);
    var e := before + em;
    SelectKeeps(yb, 1, starts[k], ends[k]);
    RunBounds(yb, 1, starts, ends, k);
    forall v | 0 <= v < |em| ensures em[v] in yb && starts[k] <= Start(em[v], 1) < End(em[v], 1) <= ends[k] {
      RunSelected(yb, 1, starts, ends, k, em[v]);
    }
    forall u | 0 <= u < |e| ensures End(e[u], 1) <= ends[k] {
      if u >= |before| {
        assert e[u] == em[u - |before|];
      }
    }
    forall u, v | 0 <= u < v < |e| ensures !AcrossGap(yb, 1, e[v], e[u]) {
      if v < |before| {
        assert e[u] == before[u] && e[v] == before[v];
      } else if u < |before| {
        assert e[u] == before[u] && e[v] == em[v - |before|];
      } else {
        assert e[u] == em[u - |before|] && e[v] == em[v - |before|];
        if AcrossGap(yb, 1, e[v], e[u]) {
          AcrossGapSubset(band, yb, 1, e[v], e[u]);
        }
      }
    }
    forall u, v | 0 <= u < |before| <= v < |e| ensures !Overlap(e[u], e[v], 1) {
      assert e[u] == before[u] && e[v] == em[v - |before|];
    }
    forall u, v | 0 <= u < v < |e| && Overlap(e[u], e[v], 1) ensures !AcrossGap(yb, 0, e[v], e[u]) {
      if v < |before| {
        assert e[u] == before[u] && e[v] == before[v];
      } else {
        assert e[u] == em[u - |before|] && e[v] == em[v - |before|];
        if AcrossGap(yb, 0, e[v], e[u]) {
          AcrossGapSubset(band, yb, 0, e[v], e[u]);
        }
      }
    }
  }

  /** Columns come out left to right, and within one column no box lies right of another across an empty column. */
  lemma ColumnOrderStep(xb: seq<Box>, starts: seq<int>, ends: seq<int>, d: int, before: seq<Box>, em: seq<Box>)
    requires |xb| > 0 && NonNegative(xb) && WellFormed(xb)
    requires Splits(xb, 0) == Some((starts, ends))
    requires 0 <= d < |starts| == |ends|
    requires forall u :: 0 <= u < |before| ==> before[u] in xb && Start(before[u], 0) < Reach(ends, d)
    requires LeftToRight(xb, before)
    requires forall v :: 0 <= v < |em| ==> em[v] in Select(xb, xb, 0, starts[d], ends[d])
    ensures forall u :: 0 <= u < |before + em| ==> Start((before + em)[u], 0) < Reach(ends, d + 1)
    ensures LeftToRight(xb, before + em)
  {
    var e := before + em;
    SelectKeeps(xb, 0, starts[d], ends[d]);
    RunBounds(xb, 0, starts, ends, d);
    forall u | 0 <= u < |e| ensures Start(e[u], 0) < ends[d] {
      if u >= |before| {
        assert e[u] == em[u - |before|];
      }
    }
    forall u, v | 0 <= u < v < |e| ensures !AcrossGap(xb, 0, e[v], e[u]) {
      if v < |before| {
        assert e[u] == before[u] && e[v] == before[v];
      } else if u < |before| {
        assert e[u] == before[u] && e[v] == em[v - |before|];
        assert em[v - |before|] in xb;
      } else {
        assert e[u] == em[u - |before|] && e[v] == em[v - |before|];
        assert em[v - |before|] in xb;
        NoGapInRun(xb, 0, starts, ends, d, e[v], e[u]);
      }
    }
  }

  /** No box of a later run belongs to an earlier one. */
  lemma LaterRunOutside(bs: seq<Box>, axis: int, starts: seq<int>, ends: seq<int>, j: int, k: int, e: seq<Box>)
    requires |bs| > 0 && NonNegative(bs) && Splits(bs, axis) == Some((starts, ends))
    requires 0 <= j < k < |starts|
    requires forall v :: 0 <= v < |e| ==> e[v] in Select(bs, bs, axis, starts[k], ends[k])
    ensures Outside(e, Select(bs, bs, axis, starts[j], ends[j]))
  {
    SplitShape(Profile(bs, axis), 0, 1, starts, ends);
    forall v | 0 <= v < |e| ensures e[v] !in Select(bs, bs, axis, starts[j], ends[j]) {
      SelectMember(bs, axis, starts[k], ends[k], e[v]);
      SelectMember(bs, axis, starts[j], ends[j], e[v]);
    }
  }

  /** No box starting before the end of the runs before run k belongs to run k. */
  lemma EarlierOutside(bs: seq<Box>, axis: int, starts: seq<int>, ends: seq<int>, k: int, e: seq<Box>)
    requires |bs| > 0 && NonNegative(bs) && Splits(bs, axis) == Some((starts, ends))
    requires 0 <= k < |starts|
    requires forall u :: 0 <= u < |e| ==> Start(e[u], axis) < Reach(ends, k)
    ensures Outside(e, Select(bs, bs, axis, starts[k], ends[k]))
  {
    RunBounds(bs, axis, starts, ends, k);
    forall u | 0 <= u < |e| ensures e[u] !in Select(bs, bs, axis, starts[k], ends[k]) {
      SelectMember(bs, axis, starts[k], ends[k], e[u]);
    }
  }

  /** The bands already laid out keep their band order once the next band's output follows, and so does the new band. */
  lemma BandsOrderedStep(yb: seq<Box>, starts: seq<int>, ends: seq<int>, k: int, before: seq<Box>, em: seq<Box>)
    requires |yb| > 0 && NonNegative(yb)
    requires Splits(yb, 1) == Some((starts, ends))
    requires 0 <= k < |starts| == |ends|
    requires forall u :: 0 <= u < |before| ==> Start(before[u], 1) < Reach(ends, k)
    requires forall v :: 0 <= v < |em| ==> em[v] in Select(yb, yb, 1, starts[k], ends[k])
    requires BandsOrdered(yb, starts, ends, k, before)
    requires BandOrdered(Select(yb, yb, 1, starts[k], ends[k]), em)
    ensures BandsOrdered(yb, starts, ends, k + 1, before + em)
  {
    EarlierOutside(yb, 1, starts, ends, k, before);
    BandOrderedJoin(Select(yb, yb, 1, starts[k], ends[k]), before, em);
    forall j | 0 <= j < k ensures BandOrdered(Select(yb, yb, 1, starts[j], ends[j]), before + em) {
      LaterRunOutside(yb, 1, starts, ends, j, k, em);
      BandOrderedJoin(Select(yb, yb, 1, starts[j], ends[j]), before, em);
    }
  }

  /** The columns already laid out stay in reading order once the next column's output follows, and so does the new column. */
  lemma ColumnsOrderedStep(xb: seq<Box>, starts: seq<int>, ends: seq<int>, d: int, before: seq<Box>, em: seq<Box>)
    requires |xb| > 0 && NonNegative(xb)
    requires Splits(xb, 0) == Some((starts, ends))
    requires 0 <= d < |starts| == |ends|
    requires forall u :: 0 <= u < |before| ==> Start(before[u], 0) < Reach(ends, d)
    requires forall v :: 0 <= v < |em| ==> em[v] in Select(xb, xb, 0, starts[d], ends[d])
    requires ColumnsOrdered(xb, starts, ends, d, before)
    requires XyOrdered(Select(xb, xb, 0, starts[d], ends[d]), em)
    ensures ColumnsOrdered(xb, starts, ends, d + 1, before + em)
  {
    EarlierOutside(xb, 0, starts, ends, d, before);
    XyOrderedJoin(Select(xb, xb, 0, starts[d], ends[d]), before, em);
    forall j | 0 <= j < d ensures XyOrdered(Select(xb, xb, 0, starts[j], ends[j]), before + em) {
      LaterRunOutside(xb, 0, starts, ends, j, d, em);
      XyOrderedJoin(Select(xb, xb, 0, starts[j], ends[j]), before, em);
    }
  }

  /** A band of several columns, each in reading order and all of them left to right, is in band order. */
  lemma ColumnsBandOrdered(xb: seq<Box>, starts: seq<int>, ends: seq<int>, e: seq<Box>)
    requires SplitOf(xb, 0, starts, ends) && |starts| >= 2
    requires LeftToRight(xb, e)
    requires ColumnsOrdered(xb, starts, ends, |starts|, e)
    ensures BandOrdered(xb, e)
  {
    forall s, t | SplitOf(xb, 0, s, t)
      ensures && (|s| == 1 ==> SortedIn(xb, e))
              && (|s| >= 2 ==>
                    forall d :: 0 <= d < |s| && |Select(xb, xb, 0, s[d], t[d])| < |xb| ==>
                      XyOrdered(Select(xb, xb, 0, s[d], t[d]), e))
    {
      SplitOfUnique(xb, 0, s, t, starts, ends);
    }
  }

  /** A band of one column, sorted by upper edge and emitted as it is, is in band order. */
  lemma OneColumnBandOrdered(boxes: seq<Box>, xb: seq<Box>, starts: seq<int>, ends: seq<int>)
    requires WellFormed(boxes) && |xb| > 0 && NonNegative(xb) && multiset(xb) == multiset(boxes)
    requires Splits(xb, 0) == Some((starts, ends)) && |starts| == 1
    requires SortedOn(boxes, 1)
    ensures BandOrdered(boxes, boxes)
  {
    MembersOfPermuted(xb, boxes);
    SingleRunOrder(boxes, xb, starts, ends);
    SplitOfSplits(xb, 0, starts, ends);
    forall s, t | SplitOf(boxes, 0, s, t)
      ensures && (|s| == 1 ==> SortedIn(boxes, boxes))
              && (|s| >= 2 ==>
                    forall d :: 0 <= d < |s| && |Select(boxes, boxes, 0, s[d], t[d])| < |boxes| ==>
                      XyOrdered(Select(boxes, boxes, 0, s[d], t[d]), boxes))
    {
      SplitOfPermuted(boxes, xb, 0, s, t);
      SplitOfUnique(xb, 0, s, t, starts, ends);
    }
  }

  /** Before the first band nothing has come out. */
  lemma BandsStart(yb: seq<Box>, yi: seq<int>, starts: seq<int>, ends: seq<int>, res0: seq<int>)
    requires |yb| == |yi| && |starts| == |ends|
    ensures BandsDone(yb, yi, starts, ends, 0, res0, res0, [])
  {
    SelectEmptyRange(yb, yi, 1, 0, 0);
  }

  /** One pass of the band loop: the new band's output extends what the earlier bands gave. */
  lemma BandStep(yb: seq<Box>, yi: seq<int>, starts: seq<int>, ends: seq<int>, k: int,
                 res0: seq<int>, res: seq<int>, emitted: seq<Box>, r: seq<int>, em: seq<Box>)
    requires |yb| == |yi| > 0 && NonNegative(yb)
    requires SplitOf(yb, 1, starts, ends)
    requires 0 <= k < |starts| == |ends|
    requires BandsDone(yb, yi, starts, ends, k, res0, res, emitted)
    requires |Select(yb, yb, 1, starts[k], ends[k])| == |Select(yb, yi, 1, starts[k], ends[k])|
    requires Appended(Select(yb, yb, 1, starts[k], ends[k]), Select(yb, yi, 1, starts[k], ends[k]), res, r, em)
    requires multiset(r[|res|..]) <= multiset(Select(yb, yi, 1, starts[k], ends[k]))
    requires WellFormed(Select(yb, yb, 1, starts[k], ends[k])) ==>
      multiset(r[|res|..]) == multiset(Select(yb, yi, 1, starts[k], ends[k]))
    requires WellFormed(Select(yb, yb, 1, starts[k], ends[k])) ==>
      TopDown(Select(yb, yb, 1, starts[k], ends[k]), em) && LeftToRight(Select(yb, yb, 1, starts[k], ends[k]), em)
    requires WellFormed(Select(yb, yb, 1, starts[k], ends[k])) ==> BandOrdered(Select(yb, yb, 1, starts[k], ends[k]), em)
    ensures BandsDone(yb, yi, starts, ends, k + 1, res0, r, emitted + em)
  {
    SplitOfSplits(yb, 1, starts, ends);
    var bandB, bandI := Select(yb, yb, 1, starts[k], ends[k]), Select(yb, yi, 1, starts[k], ends[k]);
    SelectPairs(yb, yi, 1, starts[k], ends[k]);
    SelectKeeps(yb, 1, starts[k], ends[k]);
    AppendStep(yb, yi, bandB, bandI, res0, res, emitted, r, em);
    MultisetStep(yb, yi, 1, starts, ends, k, res[|res0|..], r[|res|..]);
    if WellFormed(yb) {
      MultisetStepExact(yb, yi, 1, starts, ends, k, res[|res0|..], r[|res|..]);
      BandOrderStep(yb, starts, ends, k, emitted, em);
      forall u | 0 <= u < |emitted| ensures Start(emitted[u], 1) < Reach(ends, k) {
        assert emitted[u] in yb;
      }
      BandsOrderedStep(yb, starts, ends, k, emitted, em);
    }
  }

  /**
   * After the last band every box of positive size has come out, and the
   * region is in reading order: bands top to bottom, each band in band order.
   */
  lemma BandsEnd(yb: seq<Box>, yi: seq<int>, starts: seq<int>, ends: seq<int>, out: seq<int>, emitted: seq<Box>)
    requires |yb| == |yi| > 0 && NonNegative(yb)
    requires SplitOf(yb, 1, starts, ends)
    requires multiset(out) <= multiset(Select(yb, yi, 1, 0, Reach(ends, |starts|)))
    requires WellFormed(yb) ==> multiset(out) == multiset(Select(yb, yi, 1, 0, Reach(ends, |starts|)))
    requires WellFormed(yb) ==> TopDown(yb, emitted) && BandsOrdered(yb, starts, ends, |starts|, emitted)
    ensures multiset(out) <= multiset(yi)
    ensures WellFormed(yb) ==> multiset(out) == multiset(yi)
    ensures WellFormed(yb) ==> XyOrdered(yb, emitted)
  {
    SplitOfSplits(yb, 1, starts, ends);
    MultisetDone(yb, yi, 1, starts, ends, out);
    if WellFormed(yb) {
      MultisetDoneExact(yb, yi, 1, starts, ends, out);
      forall s, t | SplitOf(yb, 1, s, t)
        ensures forall j :: 0 <= j < |s| ==> BandOrdered(Select(yb, yb, 1, s[j], t[j]), emitted)
      {
        SplitOfUnique(yb, 1, s, t, starts, ends);
      }
    }
  }

  /** Before the first column nothing has come out. */
  lemma ColumnsStart(xb: seq<Box>, xi: seq<int>, starts: seq<int>, ends: seq<int>, res0: seq<int>)
    requires |xb| == |xi| && |starts| == |ends|
    ensures ColumnsDone(xb, xi, starts, ends, 0, res0, res0, [])
  {
    SelectEmptyRange(xb, xi, 0, 0, 0);
  }

  /** One pass of the column loop: the new column's output extends what the earlier columns gave. */
  lemma ColumnStep(xb: seq<Box>, xi: seq<int>, starts: seq<int>, ends: seq<int>, d: int,
                   res0: seq<int>, res: seq<int>, emitted: seq<Box>, r: seq<int>, em: seq<Box>)
    requires |xb| == |xi| > 0 && NonNegative(xb)
    requires SplitOf(xb, 0, starts, ends)
    requires 0 <= d < |starts| == |ends|
    requires ColumnsDone(xb, xi, starts, ends, d, res0, res, emitted)
    requires |Select(xb, xb, 0, starts[d], ends[d])| == |Select(xb, xi, 0, starts[d], ends[d])|
    requires Appended(Select(xb, xb, 0, starts[d], ends[d]), Select(xb, xi, 0, starts[d], ends[d]), res, r, em)
    requires multiset(r[|res|..]) <= multiset(Select(xb, xi, 0, starts[d], ends[d]))
    requires WellFormed(Select(xb, xb, 0, starts[d], ends[d])) ==>
      multiset(r[|res|..]) == multiset(Select(xb, xi, 0, starts[d], ends[d]))
    requires WellFormed(Select(xb, xb, 0, starts[d], ends[d])) ==> XyOrdered(Select(xb, xb, 0, starts[d], ends[d]), em)
    ensures ColumnsDone(xb, xi, starts, ends, d + 1, res0, r, emitted + em)
  {
    SplitOfSplits(xb, 0, starts, ends);
    var colB, colI := Select(xb, xb, 0, starts[d], ends[d]), Select(xb, xi, 0, starts[d], ends[d]);
    SelectPairs(xb, xi, 0, starts[d], ends[d]);
    SelectKeeps(xb, 0, starts[d], ends[d]);
    AppendStep(xb, xi, colB, colI, res0, res, emitted, r, em);
    MultisetStep(xb, xi, 0, starts, ends, d, res[|res0|..], r[|res|..]);
    if WellFormed(xb) {
      MultisetStepExact(xb, xi, 0, starts, ends, d, res[|res0|..], r[|res|..]);
      ColumnOrderStep(xb, starts, ends, d, emitted, em);
      ColumnsOrderedStep(xb, starts, ends, d, emitted, em);
    }
  }

  /** After the last column every box of positive size has come out. */
  lemma ColumnsEnd(xb: seq<Box>, xi: seq<int>, starts: seq<int>, ends: seq<int>, out: seq<int>)
    requires |xb| == |xi| > 0 && NonNegative(xb)
    requires SplitOf(xb, 0, starts, ends)
    requires multiset(out) <= multiset(Select(xb, xi, 0, 0, Reach(ends, |starts|)))
    requires WellFormed(xb) ==> multiset(out) == multiset(Select(xb, xi, 0, 0, Reach(ends, |starts|)))
    ensures multiset(out) <= multiset(xi)
    ensures WellFormed(xb) ==> multiset(out) == multiset(xi)
  {
    SplitOfSplits(xb, 0, starts, ends);
    MultisetDone(xb, xi, 0, starts, ends, out);
    if WellFormed(xb) {
      MultisetDoneExact(xb, xi, 0, starts, ends, out);
    }
  }
}
