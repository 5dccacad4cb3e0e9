/**
 * The projection histogram of a set of boxes on one axis: entry `p` counts
 * the boxes whose half-open extent `[start, end)` on that axis contains `p`,
 * and the histogram is as long as the largest coordinate on that axis.
 */
module Projection {
  import opened Boxes
  import opened Indexing

  /** The number of boxes that cover position `p` on `axis`. */
  function Coverage(boxes: seq<Box>, axis: int, p: int): (n: nat)
    ensures n <= |boxes|
    ensures n == 0 <==> forall b :: b in boxes ==> !Covers(b, axis, p)
  {
    if |boxes| == 0 then 0
    else
      var front, last := boxes[..|boxes| - 1], boxes[|boxes| - 1];
      assert boxes == front + [last];
      Coverage(front, axis, p) + (if Covers(last, axis, p) then 1 else 0)
  }

  /** `np.max(boxes[:, axis::2])`: the largest start or end coordinate on `axis`. */
  function Extent(boxes: seq<Box>, axis: int): (m: int)
    requires |boxes| > 0
    ensures forall b :: b in boxes ==> Start(b, axis) <= m && End(b, axis) <= m
    ensures exists b :: b in boxes && (m == Start(b, axis) || m == End(b, axis))
  {
    var front, last := boxes[..|boxes| - 1], boxes[|boxes| - 1];
    assert boxes == front + [last];
    var top := Max(Start(last, axis), End(last, axis));
    if |boxes| == 1 then top else Max(Extent(front, axis), top)
  }

  /** The histogram as a value: one coverage count per position below the extent. */
  function Profile(boxes: seq<Box>, axis: int): (h: seq<int>)
    requires |boxes| > 0 && NonNegative(boxes)
    ensures |h| == Extent(boxes, axis)
    ensures forall p :: 0 <= p < |h| ==> h[p] == Coverage(boxes, axis, p)
  {
    var b := boxes[0];
    assert b in boxes && 0 <= Start(b, axis);
    seq(Extent(boxes, axis), p => Coverage(boxes, axis, p))
  }

  /**
   * Fills a zero array of length `Extent` by adding one to the slice
   * `[start, end)` of every box in turn.
   */
  method ProjectionByBboxes(boxes: seq<Box>, axis: int) returns (hist: array<int>)
    requires IsAxis(axis)
    requires |boxes| > 0 && NonNegative(boxes)
    ensures fresh(hist)
    ensures hist.Length == Extent(boxes, axis)
    ensures forall p :: 0 <= p < hist.Length ==> hist[p] == Coverage(boxes, axis, p)
  {
    var length := Extent(boxes, axis);
    assert boxes[0] in boxes;
    hist := new int[length](_ => 0);
    for i := 0 to |boxes|
      invariant forall p :: 0 <= p < hist.Length ==> hist[p] == Coverage(boxes[..i], axis, p)
    {
      assert boxes[i] in boxes;
      CoveragePrefix(boxes, axis, i);
      AddSlice(hist, Start(boxes[i], axis), End(boxes[i], axis));
    }
    assert boxes[..|boxes|] == boxes;
  }

  /** `res[start:end] += 1`: one more at every position of the slice, nothing else changes. */
  method AddSlice(hist: array<int>, start: int, end: int)
    requires 0 <= start && end <= hist.Length
    modifies hist
    ensures forall q :: 0 <= q < hist.Length ==> hist[q] == old(hist[q]) + (if start <= q < end then 1 else 0)
  {
    var p := start;
    while p < end
      invariant start <= p <= Max(start, end)
      invariant forall q :: 0 <= q < hist.Length ==>
        hist[q] == old(hist[q]) + (if start <= q < p then 1 else 0)
    {
      hist[p] := hist[p] + 1;
      p := p + 1;
    }
  }

  /** One more box counts once more wherever it covers. */
  lemma CoveragePrefix(boxes: seq<Box>, axis: int, i: nat)
    requires i < |boxes|
    ensures forall p ::
      Coverage(boxes[..i + 1], axis, p) == Coverage(boxes[..i], axis, p) + (if Covers(boxes[i], axis, p) then 1 else 0)
  {
    assert boxes[..i + 1][..i] == boxes[..i];
  }

  lemma {:induction false} CoverageConcat(s: seq<Box>, t: seq<Box>, axis: int, p: int)
    ensures Coverage(s + t, axis, p) == Coverage(s, axis, p) + Coverage(t, axis, p)
    decreases |t|
  {
    if |t| > 0 {
      var t', last := t[..|t| - 1], t[|t| - 1];
      assert (s + t)[..|s + t| - 1] == s + t';
      CoverageConcat(s, t', axis, p);
    } else {
      assert s + t == s;
    }
  }

  /** The coverage count depends only on which boxes there are, not on their order. */
  lemma {:induction false} CoverageOfPermuted(s: seq<Box>, t: seq<Box>, axis: int, p: int)
    requires multiset(s) == multiset(t)
    ensures Coverage(s, axis, p) == Coverage(t, axis, p)
    decreases |s|
  {
    if |s| == 0 {
      assert |multiset(t)| == 0;
      return;
    }
    var s', x := s[..|s| - 1], s[|s| - 1];
    assert s == s' + [x];
    assert x in multiset(t);
    var k :| 0 <= k < |t| && t[k] == x;
    var front, back := t[..k], t[k + 1..];
    assert t == front + [x] + back;
    assert multiset(front + back) == multiset(t) - multiset{x};
    assert multiset(s') == multiset(s) - multiset{x};
    CoverageOfPermuted(s', front + back, axis, p);
    CoverageConcat(front, back, axis, p);
    CoverageConcat(front, [x], axis, p);
    CoverageConcat(front + [x], back, axis, p);
    assert Coverage([x], axis, p) == if Covers(x, axis, p) then 1 else 0 by {
      assert [x][..0] == [];
    }
  }

  /** The extent depends only on which boxes there are. */
  lemma ExtentOfPermuted(s: seq<Box>, t: seq<Box>, axis: int)
    requires |s| > 0 && multiset(s) == multiset(t)
    ensures |t| > 0 && Extent(s, axis) == Extent(t, axis)
  {
    assert s[0] in multiset(t);
    var ms, mt := Extent(s, axis), Extent(t, axis);
    var b :| b in s && (ms == Start(b, axis) || ms == End(b, axis));
    assert b in multiset(t);
    var c :| c in t && (mt == Start(c, axis) || mt == End(c, axis));
    assert c in multiset(s);
  }

  /** Reordering the boxes, as the sorts before each projection do, leaves the histogram as it was. */
  lemma ProfileOfPermuted(s: seq<Box>, t: seq<Box>, axis: int)
    requires |s| > 0 && NonNegative(s) && multiset(s) == multiset(t)
    ensures |t| > 0 && NonNegative(t)
    ensures Profile(s, axis) == Profile(t, axis)
  {
    ExtentOfPermuted(s, t, axis);
    forall b | b in t ensures b in s {
      assert b in multiset(s);
    }
    forall p | 0 <= p < Extent(s, axis) ensures Coverage(s, axis, p) == Coverage(t, axis, p) {
      CoverageOfPermuted(s, t, axis, p);
    }
  }
}
