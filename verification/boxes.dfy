/** Detected objects as integer pixel rectangles, their confidence order and
    their intersection-over-union. */
module Boxes {
  import opened JavaMath

  /** A detection: top-left corner, extent, the network's confidence and the
      index of the predicted class. */
  datatype Box = Box(x: int, y: int, width: int, height: int, confidence: real, predictedClass: int)

  /** Every rectangle built from ordered corners has a non-negative extent. */
  predicate WellFormed(b: Box) {
    b.width >= 0 && b.height >= 0
  }

  function Area(b: Box): int {
    b.width * b.height
  }

  /** `compareTo`: `Double.compare` of the two confidences. */
  function CompareTo(a: Box, b: Box): (r: int)
    ensures r == -1 || r == 0 || r == 1
    ensures r < 0 <==> a.confidence < b.confidence
    ensures r == 0 <==> a.confidence == b.confidence
    ensures r > 0 <==> a.confidence > b.confidence
  {
    if a.confidence < b.confidence then -1
    else if a.confidence > b.confidence then 1
    else 0
  }

  /** `Collections.reverseOrder()` applied to `compareTo`. */
  function ReverseOrder(a: Box, b: Box): (r: int)
    ensures r < 0 <==> a.confidence > b.confidence
    ensures r > 0 <==> a.confidence < b.confidence
  {
    CompareTo(b, a)
  }

  function Max(a: int, b: int): int { if a >= b then a else b }
  function Min(a: int, b: int): int { if a <= b then a else b }

  /** Length of the overlap of the intervals [lo1, lo1 + len1) and
      [lo2, lo2 + len2), clamped at zero. */
  function Overlap(lo1: int, len1: int, lo2: int, len2: int): (r: int)
    ensures r >= 0
    ensures len1 >= 0 ==> r <= len1
    ensures len2 >= 0 ==> r <= len2
  {
    Max(0, Min(lo1 + len1, lo2 + len2) - Max(lo1, lo2))
  }

  lemma MulMonotone(w: int, h: int, W: int, H: int)
    requires 0 <= w && 0 <= h
    ensures w <= W && h <= H ==> w * h <= W * H
  {
    if w <= W && h <= H {
      assert w * h <= W * h;
      assert W * h <= W * H;
    }
  }

  /** Area of the intersection of two rectangles: never negative and, for
      well-formed boxes, at most the area of either box. */
  function Intersection(a: Box, b: Box): (r: int)
    ensures r >= 0
    ensures WellFormed(a) ==> r <= Area(a)
    ensures WellFormed(b) ==> r <= Area(b)
  {
    var w := Overlap(a.x, a.width, b.x, b.width);
    var h := Overlap(a.y, a.height, b.y, b.height);
    MulMonotone(w, h, a.width, a.height);
    MulMonotone(w, h, b.width, b.height);
    w * h
  }

  /** Area of the union: for well-formed boxes at least the larger area, so
      at least the intersection. */
  function Union(a: Box, b: Box): (r: int)
    ensures WellFormed(a) && WellFormed(b) ==> r >= Area(a) && r >= Area(b) && r >= Intersection(a, b)
  {
    Area(a) + Area(b) - Intersection(a, b)
  }

  /** `getIOU`: `(double) intersection / union`. With a non-zero union the
      result is the finite ratio; for well-formed boxes with an empty union
      it is `0 / 0`. */
  function IoU(a: Box, b: Box): (q: Quotient)
    ensures Union(a, b) != 0 ==> q.Finite? && q.value * Union(a, b) as real == Intersection(a, b) as real
    ensures WellFormed(a) && WellFormed(b) && Union(a, b) == 0 ==> q == NotANumber
  {
    Divide(Intersection(a, b), Union(a, b))
  }

  /** Swapping the boxes changes neither the intersection, the union nor the
      ratio. */
  lemma IoUSymmetric(a: Box, b: Box)
    ensures Intersection(a, b) == Intersection(b, a)
    ensures Union(a, b) == Union(b, a)
    ensures IoU(a, b) == IoU(b, a)
  {
  }

  /** For well-formed boxes with a non-empty union the ratio is a finite value
      in [0, 1]. */
  lemma IoUInUnitInterval(a: Box, b: Box)
    requires WellFormed(a) && WellFormed(b)
    requires Union(a, b) > 0
    ensures IoU(a, b).Finite?
    ensures 0.0 <= IoU(a, b).value <= 1.0
  {
    var i, u := Intersection(a, b), Union(a, b);
    RatioInUnitInterval(i as real, u as real);
  }

  lemma RatioInUnitInterval(i: real, u: real)
    requires 0.0 <= i <= u && 0.0 < u
    ensures 0.0 <= i / u <= 1.0
  {
    assert i / u * u == i;
  }

  /** Two well-formed boxes with an empty union have an empty intersection,
      so the ratio is `0 / 0`, NaN, which exceeds no threshold. */
  lemma DegenerateIoUExceedsNothing(a: Box, b: Box, t: real)
    requires WellFormed(a) && WellFormed(b)
    requires Union(a, b) == 0
    ensures IoU(a, b) == NotANumber
    ensures !Exceeds(IoU(a, b), t)
  {
  }

  /** A well-formed box with positive area overlaps itself completely. */
  lemma SelfIoUIsOne(a: Box)
    requires WellFormed(a) && Area(a) > 0
    ensures Intersection(a, a) == Area(a)
    ensures Union(a, a) == Area(a)
    ensures IoU(a, a) == Finite(1.0)
  {
    var n := Area(a) as real;
    assert n / n == 1.0;
  }
}
