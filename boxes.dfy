/**
 * Bounding boxes of page regions, one row `[x0, y0, x1, y1]` of the integer
 * array the sorter works on. Axis 0 reads the x columns (0 and 2) of a row,
 * axis 1 the y columns (1 and 3), as the slice `boxes[:, axis::2]` does.
 */
module Boxes {
  datatype Box = Box(x0: int, y0: int, x1: int, y1: int)

  predicate IsAxis(axis: int) { axis == 0 || axis == 1 }

  /** The lower coordinate of `b` on `axis`: column `axis` of the row. */
  function Start(b: Box, axis: int): int { if axis == 0 then b.x0 else b.y0 }

  /** The upper coordinate of `b` on `axis`: column `axis + 2` of the row. */
  function End(b: Box, axis: int): int { if axis == 0 then b.x1 else b.y1 }

  /** Position `p` lies in the half-open extent `[Start, End)` of `b` on `axis`. */
  predicate Covers(b: Box, axis: int, p: int) { Start(b, axis) <= p < End(b, axis) }

  predicate NonNegative(boxes: seq<Box>)
  {
    forall b :: b in boxes ==> 0 <= b.x0 && 0 <= b.y0 && 0 <= b.x1 && 0 <= b.y1
  }

  /** Every box has positive width and height. */
  predicate WellFormed(boxes: seq<Box>)
  {
    forall b :: b in boxes ==> b.x0 < b.x1 && b.y0 < b.y1
  }

  /** Column `axis` of the box array, the key that `argsort` and the band filters read. */
  function Keys(boxes: seq<Box>, axis: int): (keys: seq<int>)
    ensures |keys| == |boxes|
    ensures forall j :: 0 <= j < |boxes| ==> keys[j] == Start(boxes[j], axis)
  {
    seq(|boxes|, j requires 0 <= j < |boxes| => Start(boxes[j], axis))
  }

  function Max(a: int, b: int): int { if a < b then b else a }

}
