/**
 * The reading order the recursive cut produces, stated of the boxes alone.
 * In a region, no box comes out after a box lying wholly above it across an
 * empty row. In each horizontal band of the region, no box comes out after
 * a box lying wholly left of it across an empty column. A band of a single
 * column comes out by ascending upper edge. A band of several columns is
 * ordered column by column, each column again as a region.
 */
module XyOrder {
  import opened Wrappers
  import opened Boxes
  import opened Projection
  import opened ProfileSplit
  import opened Selection
  import opened Bands

  /**
   * Of the boxes of `region` that `e` lists, none comes after a box lying
   * wholly before it on `axis`, across a line that no box of `region` covers.
   */
  ghost predicate InOrder(region: seq<Box>, axis: int, e: seq<Box>)
  {
    forall u, v :: 0 <= u < v < |e| && e[u] in region && e[v] in region ==> !AcrossGap(region, axis, e[v], e[u])
  }

  /** The boxes of `region` that `e` lists come out by ascending upper edge. */
  ghost predicate SortedIn(region: seq<Box>, e: seq<Box>)
  {
    forall u, v :: 0 <= u < v < |e| && e[u] in region && e[v] in region ==> Start(e[u], 1) <= Start(e[v], 1)
  }

  /** `e` lists the boxes of `region` band by band, each band in band order. */
  ghost predicate XyOrdered(region: seq<Box>, e: seq<Box>)
    decreases |region|, 1
  {
    && InOrder(region, 1, e)
    && forall starts, ends :: SplitOf(region, 1, starts, ends) ==>
         forall k :: 0 <= k < |starts| ==> BandOrdered(Select(region, region, 1, starts[k], ends[k]), e)
  }

  /**
   * `e` lists the boxes of `band` column by column: by upper edge when the
   * band is one column, and each column in reading order when it is
   * several (a column is smaller than its band whenever the boxes have
   * positive width).
   */
  ghost predicate BandOrdered(band: seq<Box>, e: seq<Box>)
    decreases |band|, 0
  {
    && InOrder(band, 0, e)
    && forall starts, ends :: SplitOf(band, 0, starts, ends) ==>
         && (|starts| == 1 ==> SortedIn(band, e))
         && (|starts| >= 2 ==>
               forall d :: 0 <= d < |starts| && |Select(band, band, 0, starts[d], ends[d])| < |band| ==>
                 XyOrdered(Select(band, band, 0, starts[d], ends[d]), e))
  }

  /** No box that `e` lists belongs to `region`. */
  ghost predicate Outside(e: seq<Box>, region: seq<Box>)
  {
    forall u :: 0 <= u < |e| ==> e[u] !in region
  }

  // ---------------------------------------------------------------------
  // What the order says of two boxes.

  /** Of two boxes in different bands, the box of the earlier band comes out first. */
  lemma BandsInOrder(boxes: seq<Box>, e: seq<Box>, starts: seq<int>, ends: seq<int>, i: int, j: int, u: int, v: int)
    requires |boxes| > 0 && NonNegative(boxes) && WellFormed(boxes) && XyOrdered(boxes, e)
    requires |starts| == |ends| && Splits(boxes, 1) == Some((starts, ends)) && 0 <= i < j < |starts|
    requires 0 <= u < |e| && e[u] in Select(boxes, boxes, 1, starts[i], ends[i])
    requires 0 <= v < |e| && e[v] in Select(boxes, boxes, 1, starts[j], ends[j])
    ensures u < v
  {
    SelectKeeps(boxes, 1, starts[i], ends[i]);
    SelectKeeps(boxes, 1, starts[j], ends[j]);
    BoxesAcrossRuns(boxes, 1, starts, ends, i, j, e[u], e[v]);
    GapOrder(boxes, 1, e, u, v);
  }

  /** Of two boxes in different columns of a band of several columns, the box of the earlier column comes out first. */
  lemma ColumnsInOrder(boxes: seq<Box>, e: seq<Box>, starts: seq<int>, ends: seq<int>, k: int, band: seq<Box>,
                       cs: seq<int>, ce: seq<int>, i: int, j: int, u: int, v: int)
    requires |boxes| > 0 && NonNegative(boxes) && WellFormed(boxes) && XyOrdered(boxes, e)
    requires |starts| == |ends| && Splits(boxes, 1) == Some((starts, ends)) && 0 <= k < |starts|
    requires band == Select(boxes, boxes, 1, starts[k], ends[k]) && |band| > 0 && NonNegative(band)
    requires |cs| == |ce| && Splits(band, 0) == Some((cs, ce)) && 0 <= i < j < |cs|
    requires 0 <= u < |e| && e[u] in Select(band, band, 0, cs[i], ce[i])
    requires 0 <= v < |e| && e[v] in Select(band, band, 0, cs[j], ce[j])
    ensures u < v
  {
    SplitOfSplits(boxes, 1, starts, ends);
    assert InOrder(band, 0, e);
    SelectKeeps(boxes, 1, starts[k], ends[k]);
    SelectKeeps(band, 0, cs[i], ce[i]);
    SelectKeeps(band, 0, cs[j], ce[j]);
    BoxesAcrossRuns(band, 0, cs, ce, i, j, e[u], e[v]);
    GapOrder(band, 0, e, u, v);
  }

  /** A box listed in order lying wholly before another across an empty line is listed first. */
  lemma GapOrder(region: seq<Box>, axis: int, e: seq<Box>, u: int, v: int)
    requires InOrder(region, axis, e)
    requires 0 <= u < |e| && 0 <= v < |e| && e[u] in region && e[v] in region
    requires AcrossGap(region, axis, e[u], e[v]) && Start(e[u], axis) < End(e[u], axis)
    ensures u < v
  {
    var g :| End(e[u], axis) <= g < Start(e[v], axis) && LineEmpty(region, axis, g);
    assert e[u] != e[v];
  }

  /** In a band of a single column, the boxes come out by ascending upper edge. */
  lemma ColumnTopDown(boxes: seq<Box>, e: seq<Box>, starts: seq<int>, ends: seq<int>, k: int, band: seq<Box>,
                      cs: seq<int>, ce: seq<int>, u: int, v: int)
    requires |boxes| > 0 && NonNegative(boxes) && XyOrdered(boxes, e)
    requires |starts| == |ends| && Splits(boxes, 1) == Some((starts, ends)) && 0 <= k < |starts|
    requires band == Select(boxes, boxes, 1, starts[k], ends[k]) && |band| > 0 && NonNegative(band)
    requires |cs| == |ce| && Splits(band, 0) == Some((cs, ce)) && |cs| == 1
    requires 0 <= u < v < |e| && e[u] in band && e[v] in band
    ensures Start(e[u], 1) <= Start(e[v], 1)
  {
    SplitOfSplits(boxes, 1, starts, ends);
    SplitOfSplits(band, 0, cs, ce);
  }

  /** A column of a band of several columns is itself in reading order. */
  lemma ColumnXyOrdered(boxes: seq<Box>, e: seq<Box>, starts: seq<int>, ends: seq<int>, k: int, band: seq<Box>,
                        cs: seq<int>, ce: seq<int>, d: int)
    requires |boxes| > 0 && NonNegative(boxes) && WellFormed(boxes) && XyOrdered(boxes, e)
    requires |starts| == |ends| && Splits(boxes, 1) == Some((starts, ends)) && 0 <= k < |starts|
    requires band == Select(boxes, boxes, 1, starts[k], ends[k]) && |band| > 0 && NonNegative(band)
    requires |cs| == |ce| && Splits(band, 0) == Some((cs, ce)) && |cs| >= 2 && 0 <= d < |cs|
    ensures XyOrdered(Select(band, band, 0, cs[d], ce[d]), e)
  {
    SplitOfSplits(boxes, 1, starts, ends);
    SplitOfSplits(band, 0, cs, ce);
    SelectKeeps(boxes, 1, starts[k], ends[k]);
    RunSmaller(band, band, 0, cs, ce, d);
  }

  // ---------------------------------------------------------------------
  // The order depends only on which boxes there are.

  lemma SplitOfUnique(boxes: seq<Box>, axis: int, s1: seq<int>, e1: seq<int>, s2: seq<int>, e2: seq<int>)
    requires SplitOf(boxes, axis, s1, e1) && SplitOf(boxes, axis, s2, e2)
    ensures s1 == s2 && e1 == e2
  {
    assert ProfileIs(boxes, axis, Profile(boxes, axis));
  }

  lemma SplitOfPermuted(s: seq<Box>, t: seq<Box>, axis: int, starts: seq<int>, ends: seq<int>)
    requires multiset(s) == multiset(t) && SplitOf(s, axis, starts, ends)
    ensures SplitOf(t, axis, starts, ends)
  {
    ProfileOfPermuted(s, t, axis);
    forall h | ProfileIs(t, axis, h) ensures SplitProjectionProfile(h, 0, 1) == Some((starts, ends)) {
      assert ProfileIs(s, axis, h);
    }
  }

  lemma MembersOfPermuted(s: seq<Box>, t: seq<Box>)
    requires multiset(s) == multiset(t)
    ensures forall c :: c in s <==> c in t
  {
    forall c ensures c in s <==> c in t {
      assert c in s <==> c in multiset(s);
      assert c in t <==> c in multiset(t);
    }
  }

  lemma InOrderSame(s: seq<Box>, t: seq<Box>, axis: int, e: seq<Box>)
    requires forall c :: c in s <==> c in t
    requires InOrder(s, axis, e)
    ensures InOrder(t, axis, e)
  {
    forall u, v | 0 <= u < v < |e| && e[u] in t && e[v] in t ensures !AcrossGap(t, axis, e[v], e[u]) {
      AcrossGapSubset(s, t, axis, e[v], e[u]);
    }
  }

  /** A rearranged region is in reading order exactly when the region is. */
  lemma {:induction false} XyOrderedPermuted(s: seq<Box>, t: seq<Box>, e: seq<Box>)
    requires multiset(s) == multiset(t) && XyOrdered(s, e)
    ensures XyOrdered(t, e)
    decreases |s|, 1
  {
    MembersOfPermuted(s, t);
    InOrderSame(s, t, 1, e);
    forall starts, ends | SplitOf(t, 1, starts, ends)
      ensures forall k :: 0 <= k < |starts| ==> BandOrdered(Select(t, t, 1, starts[k], ends[k]), e)
    {
      SplitOfPermuted(t, s, 1, starts, ends);
      forall k | 0 <= k < |starts| ensures BandOrdered(Select(t, t, 1, starts[k], ends[k]), e) {
        SelectPermuted(s, t, 1, starts[k], ends[k]);
        BandOrderedPermuted(Select(s, s, 1, starts[k], ends[k]), Select(t, t, 1, starts[k], ends[k]), e);
      }
    }
  }

  /** A rearranged band is in band order exactly when the band is. */
  lemma {:induction false} BandOrderedPermuted(s: seq<Box>, t: seq<Box>, e: seq<Box>)
    requires multiset(s) == multiset(t) && BandOrdered(s, e)
    ensures BandOrdered(t, e)
    decreases |s|, 0
  {
    MembersOfPermuted(s, t);
    InOrderSame(s, t, 0, e);
    forall starts, ends | SplitOf(t, 0, starts, ends)
      ensures && (|starts| == 1 ==> SortedIn(t, e))
              && (|starts| >= 2 ==>
                    forall d :: 0 <= d < |starts| && |Select(t, t, 0, starts[d], ends[d])| < |t| ==>
                      XyOrdered(Select(t, t, 0, starts[d], ends[d]), e))
    {
      SplitOfPermuted(t, s, 0, starts, ends);
      if |starts| >= 2 {
        forall d | 0 <= d < |starts| && |Select(t, t, 0, starts[d], ends[d])| < |t|
          ensures XyOrdered(Select(t, t, 0, starts[d], ends[d]), e)
        {
          SelectPermuted(s, t, 0, starts[d], ends[d]);
          assert |Select(s, s, 0, starts[d], ends[d])| == |Select(t, t, 0, starts[d], ends[d])| by {
            assert |multiset(Select(s, s, 0, starts[d], ends[d]))| == |multiset(Select(t, t, 0, starts[d], ends[d]))|;
          }
          assert |s| == |t| by {
            assert |multiset(s)| == |multiset(t)|;
          }
          XyOrderedPermuted(Select(s, s, 0, starts[d], ends[d]), Select(t, t, 0, starts[d], ends[d]), e);
        }
      }
    }
  }

  // ---------------------------------------------------------------------
  // Output that lies outside a region does not disturb its order.

  lemma InOrderJoin(region: seq<Box>, axis: int, a: seq<Box>, b: seq<Box>)
    requires (Outside(a, region) && InOrder(region, axis, b)) || (Outside(b, region) && InOrder(region, axis, a))
    ensures InOrder(region, axis, a + b)
  {
    var e := a + b;
    forall u, v | 0 <= u < v < |e| && e[u] in region && e[v] in region ensures !AcrossGap(region, axis, e[v], e[u]) {
      if Outside(a, region) && InOrder(region, axis, b) {
        assert u >= |a|;
        assert e[u] == b[u - |a|] && e[v] == b[v - |a|];
      } else {
        assert v < |a|;
        assert e[u] == a[u] && e[v] == a[v];
      }
    }
  }

  lemma SortedInJoin(region: seq<Box>, a: seq<Box>, b: seq<Box>)
    requires (Outside(a, region) && SortedIn(region, b)) || (Outside(b, region) && SortedIn(region, a))
    ensures SortedIn(region, a + b)
  {
    var e := a + b;
    forall u, v | 0 <= u < v < |e| && e[u] in region && e[v] in region ensures Start(e[u], 1) <= Start(e[v], 1) {
      if Outside(a, region) && SortedIn(region, b) {
        assert u >= |a|;
        assert e[u] == b[u - |a|] && e[v] == b[v - |a|];
      } else {
        assert v < |a|;
        assert e[u] == a[u] && e[v] == a[v];
      }
    }
  }

  /** Output before or after a region's own boxes, none of them in the region, keeps the region in reading order. */
  lemma {:induction false} XyOrderedJoin(region: seq<Box>, a: seq<Box>, b: seq<Box>)
    requires (Outside(a, region) && XyOrdered(region, b)) || (Outside(b, region) && XyOrdered(region, a))
    ensures XyOrdered(region, a + b)
    decreases |region|, 1
  {
    InOrderJoin(region, 1, a, b);
    forall starts, ends | SplitOf(region, 1, starts, ends)
      ensures forall k :: 0 <= k < |starts| ==> BandOrdered(Select(region, region, 1, starts[k], ends[k]), a + b)
    {
      forall k | 0 <= k < |starts| ensures BandOrdered(Select(region, region, 1, starts[k], ends[k]), a + b) {
        SelectKeeps(region, 1, starts[k], ends[k]);
        BandOrderedJoin(Select(region, region, 1, starts[k], ends[k]), a, b);
      }
    }
  }

  /** Output before or after a band's own boxes, none of them in the band, keeps the band in band order. */
  lemma {:induction false} BandOrderedJoin(band: seq<Box>, a: seq<Box>, b: seq<Box>)
    requires (Outside(a, band) && BandOrdered(band, b)) || (Outside(b, band) && BandOrdered(band, a))
    ensures BandOrdered(band, a + b)
    decreases |band|, 0
  {
    InOrderJoin(band, 0, a, b);
    forall starts, ends | SplitOf(band, 0, starts, ends)
      ensures && (|starts| == 1 ==> SortedIn(band, a + b))
              && (|starts| >= 2 ==>
                    forall d :: 0 <= d < |starts| && |Select(band, band, 0, starts[d], ends[d])| < |band| ==>
                      XyOrdered(Select(band, band, 0, starts[d], ends[d]), a + b))
    {
      if |starts| == 1 {
        SortedInJoin(band, a, b);
      }
      if |starts| >= 2 {
        forall d | 0 <= d < |starts| && |Select(band, band, 0, starts[d], ends[d])| < |band|
          ensures XyOrdered(Select(band, band, 0, starts[d], ends[d]), a + b)
        {
          SelectKeeps(band, 0, starts[d], ends[d]);
          XyOrderedJoin(Select(band, band, 0, starts[d], ends[d]), a, b);
        }
      }
    }
  }
}
