/**
 * The band and column filters of the cut: the boolean mask
 * `(lo <= boxes[:, axis]) & (boxes[:, axis] < hi)` applied to a parallel
 * array, which keeps the selected rows in their original order.
 */
module Selection {
  import opened Boxes
  import opened Indexing

  /** `vals[mask]` for the mask "the start of the box on `axis` lies in `[lo, hi)`". */
  function Select<T>(boxes: seq<Box>, vals: seq<T>, axis: int, lo: int, hi: int): (r: seq<T>)
    requires |boxes| == |vals|
    ensures |r| <= |vals|
    decreases |boxes|
  {
    if |boxes| == 0 then []
    else (if lo <= Start(boxes[0], axis) < hi then [vals[0]] else []) + Select(boxes[1..], vals[1..], axis, lo, hi)
  }

  predicate InRange(b: Box, axis: int, lo: int, hi: int)
  {
    lo <= Start(b, axis) < hi
  }

  /** The same mask applied to the boxes and to the indices keeps them parallel. */
  lemma {:induction false} SelectLength<T>(boxes: seq<Box>, vals: seq<T>, axis: int, lo: int, hi: int)
    requires |boxes| == |vals|
    ensures |Select(boxes, boxes, axis, lo, hi)| == |Select(boxes, vals, axis, lo, hi)|
    decreases |boxes|
  {
    if |boxes| > 0 {
      SelectLength(boxes[1..], vals[1..], axis, lo, hi);
    }
  }

  /** Adjacent ranges partition what a wider range selects. */
  lemma {:induction false} SelectSplit<T>(boxes: seq<Box>, vals: seq<T>, axis: int, lo: int, mid: int, hi: int)
    requires |boxes| == |vals| && lo <= mid <= hi
    ensures multiset(Select(boxes, vals, axis, lo, hi)) ==
      multiset(Select(boxes, vals, axis, lo, mid)) + multiset(Select(boxes, vals, axis, mid, hi))
    decreases |boxes|
  {
    if |boxes| > 0 {
      SelectSplit(boxes[1..], vals[1..], axis, lo, mid, hi);
    }
  }

  /** A range holding every start selects everything, in order. */
  lemma {:induction false} SelectAll<T>(boxes: seq<Box>, vals: seq<T>, axis: int, lo: int, hi: int)
    requires |boxes| == |vals|
    requires forall b :: b in boxes ==> InRange(b, axis, lo, hi)
    ensures Select(boxes, vals, axis, lo, hi) == vals
    decreases |boxes|
  {
    if |boxes| > 0 {
      assert boxes[0] in boxes;
      assert forall b :: b in boxes[1..] ==> b in boxes;
      SelectAll(boxes[1..], vals[1..], axis, lo, hi);
      assert vals == [vals[0]] + vals[1..];
    }
  }

  /** A range holding no start selects nothing. */
  lemma {:induction false} SelectNone<T>(boxes: seq<Box>, vals: seq<T>, axis: int, lo: int, hi: int)
    requires |boxes| == |vals|
    requires forall b :: b in boxes ==> !InRange(b, axis, lo, hi)
    ensures Select(boxes, vals, axis, lo, hi) == []
    decreases |boxes|
  {
    if |boxes| > 0 {
      assert boxes[0] in boxes;
      assert forall b :: b in boxes[1..] ==> b in boxes;
      SelectNone(boxes[1..], vals[1..], axis, lo, hi);
    }
  }

  /** An empty range selects nothing. */
  lemma {:induction false} SelectEmptyRange<T>(boxes: seq<Box>, vals: seq<T>, axis: int, lo: int, hi: int)
    requires |boxes| == |vals| && hi <= lo
    ensures Select(boxes, vals, axis, lo, hi) == []
    decreases |boxes|
  {
    if |boxes| > 0 {
      SelectEmptyRange(boxes[1..], vals[1..], axis, lo, hi);
    }
  }

  /** A selection takes every element at most as often as it occurs. */
  lemma {:induction false} SelectSub<T>(boxes: seq<Box>, vals: seq<T>, axis: int, lo: int, hi: int)
    requires |boxes| == |vals|
    ensures multiset(Select(boxes, vals, axis, lo, hi)) <= multiset(vals)
    decreases |boxes|
  {
    if |boxes| > 0 {
      SelectSub(boxes[1..], vals[1..], axis, lo, hi);
      assert vals == [vals[0]] + vals[1..];
    }
  }

  /** The boxes selected are exactly the boxes whose start lies in the range. */
  lemma {:induction false} SelectMember(boxes: seq<Box>, axis: int, lo: int, hi: int, b: Box)
    ensures b in Select(boxes, boxes, axis, lo, hi) <==> b in boxes && InRange(b, axis, lo, hi)
    decreases |boxes|
  {
    if |boxes| > 0 {
      SelectMember(boxes[1..], axis, lo, hi, b);
      assert boxes == [boxes[0]] + boxes[1..];
    }
  }

  /** Whatever a selection holds comes from the selected sequence. */
  lemma SelectFrom<T>(boxes: seq<Box>, vals: seq<T>, axis: int, lo: int, hi: int, x: T)
    requires |boxes| == |vals| && x in Select(boxes, vals, axis, lo, hi)
    ensures x in vals
  {
    SelectSub(boxes, vals, axis, lo, hi);
    assert x in multiset(Select(boxes, vals, axis, lo, hi));
  }

  /** Selecting boxes and indices separately pairs them as selecting the pairs does. */
  lemma {:induction false} SelectZip<T>(boxes: seq<Box>, vals: seq<T>, axis: int, lo: int, hi: int)
    requires |boxes| == |vals|
    ensures |Select(boxes, boxes, axis, lo, hi)| == |Select(boxes, vals, axis, lo, hi)|
    ensures Zip(Select(boxes, boxes, axis, lo, hi), Select(boxes, vals, axis, lo, hi)) ==
      Select(boxes, Zip(boxes, vals), axis, lo, hi)
    decreases |boxes|
  {
    SelectLength(boxes, vals, axis, lo, hi);
    if |boxes| > 0 {
      SelectZip(boxes[1..], vals[1..], axis, lo, hi);
      assert Zip(boxes, vals)[1..] == Zip(boxes[1..], vals[1..]);
      var restB, restV := Select(boxes[1..], boxes[1..], axis, lo, hi), Select(boxes[1..], vals[1..], axis, lo, hi);
      if InRange(boxes[0], axis, lo, hi) {
        assert Zip([boxes[0]] + restB, [vals[0]] + restV) == [(boxes[0], vals[0])] + Zip(restB, restV);
      }
    }
  }

  /** A box left out of the range makes the selection strictly shorter. */
  lemma {:induction false} SelectSmaller<T>(boxes: seq<Box>, vals: seq<T>, axis: int, lo: int, hi: int, b: Box)
    requires |boxes| == |vals| && b in boxes && !InRange(b, axis, lo, hi)
    ensures |Select(boxes, vals, axis, lo, hi)| < |boxes|
    decreases |boxes|
  {
    if boxes[0] != b {
      assert b in boxes[1..];
      SelectSmaller(boxes[1..], vals[1..], axis, lo, hi, b);
    }
  }

  /** A box whose start lies in the range makes the selection non-empty. */
  lemma SelectNonEmpty<T>(boxes: seq<Box>, vals: seq<T>, axis: int, lo: int, hi: int, b: Box)
    requires |boxes| == |vals| && b in boxes && InRange(b, axis, lo, hi)
    ensures |Select(boxes, vals, axis, lo, hi)| > 0
  {
    SelectMember(boxes, axis, lo, hi, b);
    SelectLength(boxes, vals, axis, lo, hi);
  }

  predicate SortedOn(boxes: seq<Box>, axis: int)
  {
    forall i, j :: 0 <= i < j < |boxes| ==> Start(boxes[i], axis) <= Start(boxes[j], axis)
  }

  /** Selecting keeps the order, so boxes sorted on one axis stay sorted. */
  lemma {:induction false} SelectSorted(boxes: seq<Box>, axis: int, lo: int, hi: int, key: int)
    requires SortedOn(boxes, key)
    ensures SortedOn(Select(boxes, boxes, axis, lo, hi), key)
    decreases |boxes|
  {
    if |boxes| > 0 {
      var rest := Select(boxes[1..], boxes[1..], axis, lo, hi);
      SelectSorted(boxes[1..], axis, lo, hi, key);
      forall c | c in rest ensures Start(boxes[0], key) <= Start(c, key) {
        SelectMember(boxes[1..], axis, lo, hi, c);
        var j :| 0 <= j < |boxes[1..]| && boxes[1..][j] == c;
        assert boxes[j + 1] == c;
      }
      if InRange(boxes[0], axis, lo, hi) {
        var r := [boxes[0]] + rest;
        forall i, j | 0 <= i < j < |r| ensures Start(r[i], key) <= Start(r[j], key) {
          if i == 0 {
            assert r[j] in rest;
          } else {
            assert r[i] == rest[i - 1] && r[j] == rest[j - 1];
          }
        }
      }
    }
  }

  /** A selection of boxes keeps every property that holds of each box. */
  lemma SelectKeeps(boxes: seq<Box>, axis: int, lo: int, hi: int)
    ensures forall b :: b in Select(boxes, boxes, axis, lo, hi) ==> b in boxes && InRange(b, axis, lo, hi)
    ensures NonNegative(boxes) ==> NonNegative(Select(boxes, boxes, axis, lo, hi))
    ensures WellFormed(boxes) ==> WellFormed(Select(boxes, boxes, axis, lo, hi))
  {
    forall b | b in Select(boxes, boxes, axis, lo, hi) ensures b in boxes && InRange(b, axis, lo, hi) {
      SelectMember(boxes, axis, lo, hi, b);
    }
  }

  /** A box paired with an index by a selection was paired with it before. */
  lemma SelectPairs<T>(boxes: seq<Box>, vals: seq<T>, axis: int, lo: int, hi: int)
    requires |boxes| == |vals|
    ensures |Select(boxes, boxes, axis, lo, hi)| == |Select(boxes, vals, axis, lo, hi)|
    ensures forall x :: x in Zip(Select(boxes, boxes, axis, lo, hi), Select(boxes, vals, axis, lo, hi)) ==> x in Zip(boxes, vals)
  {
    SelectZip(boxes, vals, axis, lo, hi);
    forall x | x in Zip(Select(boxes, boxes, axis, lo, hi), Select(boxes, vals, axis, lo, hi)) ensures x in Zip(boxes, vals) {
      SelectFrom(boxes, Zip(boxes, vals), axis, lo, hi, x);
    }
  }

  /** A selection takes each box as often as the sequence holds it when its start is in range, and never otherwise. */
  lemma {:induction false} SelectCount(boxes: seq<Box>, axis: int, lo: int, hi: int, x: Box)
    ensures multiset(Select(boxes, boxes, axis, lo, hi))[x] == if InRange(x, axis, lo, hi) then multiset(boxes)[x] else 0
    decreases |boxes|
  {
    if |boxes| > 0 {
      SelectCount(boxes[1..], axis, lo, hi, x);
      assert boxes == [boxes[0]] + boxes[1..];
    }
  }

  /** Rearranging the boxes rearranges what a range selects. */
  lemma SelectPermuted(s: seq<Box>, t: seq<Box>, axis: int, lo: int, hi: int)
    requires multiset(s) == multiset(t)
    ensures multiset(Select(s, s, axis, lo, hi)) == multiset(Select(t, t, axis, lo, hi))
  {
    forall x ensures multiset(Select(s, s, axis, lo, hi))[x] == multiset(Select(t, t, axis, lo, hi))[x] {
      SelectCount(s, axis, lo, hi, x);
      SelectCount(t, axis, lo, hi, x);
    }
  }
}
