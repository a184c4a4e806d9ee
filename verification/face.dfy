/**
 Faces and boxes of the detector's post-processing, with `float` as `real`.
 */
module Face {

  datatype BBox = BBox(tlx: real, tly: real, brx: real, bry: real, area: real)
  datatype Landmark = Landmark(x: real, y: real, prob: real)
  datatype Face = Face(bbox: BBox, score: real, landmarks: seq<Landmark>)

  function Min(a: real, b: real): real {
    if b < a then b else a
  }

  function Max(a: real, b: real): real {
    if a < b then b else a
  }

  function IntersectionArea(a: BBox, b: BBox): real {
    if a.tlx > b.brx || a.brx < b.tlx || a.tly > b.bry || a.bry < b.tly then 0.0
    else (Min(a.brx, b.brx) - Max(a.tlx, b.tlx)) * (Min(a.bry, b.bry) - Max(a.tly, b.tly))
  }

  /** A box with positive sides whose area is their product. */
  predicate Proper(b: BBox) {
    b.tlx < b.brx && b.tly < b.bry && b.area == (b.brx - b.tlx) * (b.bry - b.tly)
  }

  lemma ProductMonotone(x: real, y: real, w: real, h: real)
    requires 0.0 <= x <= w && 0.0 <= y <= h
    ensures 0.0 <= x * y <= w * h
  {
    assert x * y <= w * y <= w * h;
  }

  lemma AreaPositive(b: BBox)
    requires Proper(b)
    ensures b.area > 0.0
  {
  }

  lemma IntersectionSymmetric(a: BBox, b: BBox)
    ensures IntersectionArea(a, b) == IntersectionArea(b, a)
  {
    assert Min(a.brx, b.brx) - Max(a.tlx, b.tlx) == Min(b.brx, a.brx) - Max(b.tlx, a.tlx);
    assert Min(a.bry, b.bry) - Max(a.tly, b.tly) == Min(b.bry, a.bry) - Max(b.tly, a.tly);
  }

  predicate Contains(b: BBox, x: real, y: real) {
    b.tlx <= x <= b.brx && b.tly <= y <= b.bry
  }

  /** The points of `c` are those that `a` and `b` have in common. */
  ghost predicate IsCommon(a: BBox, b: BBox, c: BBox) {
    forall x, y :: Contains(a, x, y) && Contains(b, x, y) <==> Contains(c, x, y)
  }

  /** The intersection is the area of the box of common points, and 0 if there are none. */
  lemma IntersectionIs(a: BBox, b: BBox, c: BBox)
    requires a.tlx <= a.brx && a.tly <= a.bry && b.tlx <= b.brx && b.tly <= b.bry
    ensures c.tlx <= c.brx && c.tly <= c.bry && IsCommon(a, b, c) ==>
      IntersectionArea(a, b) == (c.brx - c.tlx) * (c.bry - c.tly)
    ensures (forall x, y :: !(Contains(a, x, y) && Contains(b, x, y))) ==> IntersectionArea(a, b) == 0.0
  {
    var left, top := Max(a.tlx, b.tlx), Max(a.tly, b.tly);
    var right, bottom := Min(a.brx, b.brx), Min(a.bry, b.bry);
    if c.tlx <= c.brx && c.tly <= c.bry && IsCommon(a, b, c) {
      assert Contains(c, c.tlx, c.tly) && Contains(c, c.brx, c.bry);
      assert left <= c.tlx && c.brx <= right && top <= c.tly && c.bry <= bottom;
      assert Contains(a, left, top) && Contains(b, left, top);
      assert Contains(a, right, bottom) && Contains(b, right, bottom);
      assert c.tlx == left && c.tly == top && c.brx == right && c.bry == bottom;
    }
    if left <= right && top <= bottom {
      assert Contains(a, left, top) && Contains(b, left, top);
    }
  }

  lemma IntersectionBounds(a: BBox, b: BBox)
    requires Proper(a) && Proper(b)
    ensures 0.0 <= IntersectionArea(a, b) <= Min(a.area, b.area)
  {
    AreaPositive(a);
    AreaPositive(b);
    var w, h := Min(a.brx, b.brx) - Max(a.tlx, b.tlx), Min(a.bry, b.bry) - Max(a.tly, b.tly);
    if w >= 0.0 && h >= 0.0 {
      ProductMonotone(w, h, a.brx - a.tlx, a.bry - a.tly);
      ProductMonotone(w, h, b.brx - b.tlx, b.bry - b.tly);
    }
  }

  function UnionArea(a: BBox, b: BBox): real {
    a.area + b.area - IntersectionArea(a, b)
  }

  /** Intersection over union. */
  function Overlap(a: BBox, b: BBox): real
    requires Proper(a) && Proper(b)
  {
    IntersectionBounds(a, b);
    AreaPositive(a);
    AreaPositive(b);
    IntersectionArea(a, b) / UnionArea(a, b)
  }

  lemma QuotientBounds(x: real, y: real)
    requires 0.0 <= x <= y && y > 0.0
    ensures 0.0 <= x / y <= 1.0
    ensures x == y ==> x / y == 1.0
  {
  }

  /** The overlap of two boxes lies between 0 and 1, is symmetric, and is 1 for a box with itself. */
  lemma OverlapBounds(a: BBox, b: BBox)
    requires Proper(a) && Proper(b)
    ensures 0.0 <= Overlap(a, b) <= 1.0
    ensures Overlap(a, b) == Overlap(b, a)
    ensures a == b ==> Overlap(a, b) == 1.0
    ensures Overlap(a, b) * (a.area + b.area - IntersectionArea(a, b)) == IntersectionArea(a, b)
  {
    IntersectionBounds(a, b);
    IntersectionSymmetric(a, b);
    AreaPositive(a);
    AreaPositive(b);
    QuotientBounds(IntersectionArea(a, b), UnionArea(a, b));
  }
}
