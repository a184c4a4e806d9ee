/**
 Where the detector's faces lie, told from the values the network put out.
 */
module FaceDecode {
  import opened Face
  import opened FaceProposals

  /** The value of channel `ch`, of 21, for anchor pair `c` in row `i`, column `j` of an output of `h` rows of `w` cells. */
  function Value(input: seq<real>, w: nat, h: nat, c: nat, ch: nat, i: nat, j: nat): real {
    var n := w * h * (c * 21 + ch) + (i * w + j);
    if n < |input| then input[n] else 0.0
  }

  /** A cell's values, and what they are decoded with. */
  datatype Cell = Cell(values: seq<real>, row: nat, column: nat, stride: nat, anchorW: int, anchorH: int)

  function CellOf(g: Grid, c: nat, i: nat, j: nat): (x: Cell)
    requires c < |g.anchors| / 2
    ensures |x.values| == 21
  {
    Cell(seq(21, ch requires 0 <= ch < 21 => Value(g.inputs, g.featW, g.featH, c, ch, i, j)), i, j, g.stride, g.anchors[2 * c], g.anchors[2 * c + 1])
  }

  /** The score is the product of objectness and class, and the area that of the sides. */
  ghost predicate ScoredAs(x: Cell, sigmoid: real -> real, f: Face)
    requires |x.values| == 21
  {
    && f.score == sigmoid(x.values[4]) * sigmoid(x.values[5])
    && f.bbox.area == (f.bbox.bry - f.bbox.tly) * (f.bbox.brx - f.bbox.tlx)
  }

  /** The pixel of a place in a cell: from half a cell before it to half a cell behind it as the value goes from 0 to 1. */
  function PixelAt(value: real, at: nat, stride: nat): real {
    Pixels(2.0 * value - 0.5 + at as real, stride)
  }

  /** So many cells in pixels. */
  function Pixels(cells: real, stride: nat): real {
    cells * stride as real
  }

  /** The middle of the box, in pixels. */
  ghost predicate CentredAs(x: Cell, sigmoid: real -> real, b: BBox)
    requires |x.values| == 21
  {
    && (b.tlx + b.brx) / 2.0 == PixelAt(sigmoid(x.values[0]), x.column, x.stride)
    && (b.tly + b.bry) / 2.0 == PixelAt(sigmoid(x.values[1]), x.row, x.stride)
  }

  /** A length stretched twice by twice the value. */
  function Stretched(value: real, length: real): real {
    2.0 * value * (2.0 * value * length)
  }

  ghost predicate SizedAs(x: Cell, sigmoid: real -> real, b: BBox)
    requires |x.values| == 21
  {
    && b.brx - b.tlx == Stretched(sigmoid(x.values[2]), x.anchorW as real)
    && b.bry - b.tly == Stretched(sigmoid(x.values[3]), x.anchorH as real)
  }

  /** Five landmarks, three values each: the place in the cell, and how sure it is. */
  ghost predicate MarkedAs(x: Cell, marks: seq<Landmark>)
    requires |x.values| == 21
  {
    && |marks| == 5
    && forall l :: 0 <= l < 5 ==>
         marks[l] == Landmark(PixelAt(x.values[6 + 3 * l], x.column, x.stride), PixelAt(x.values[7 + 3 * l], x.row, x.stride), x.values[8 + 3 * l])
  }

  /** The face is the one the cell's values stand for. */
  ghost predicate Shows(x: Cell, sigmoid: real -> real, f: Face)
    requires |x.values| == 21
  {
    ScoredAs(x, sigmoid, f) && CentredAs(x, sigmoid, f.bbox) && SizedAs(x, sigmoid, f.bbox) && MarkedAs(x, f.landmarks)
  }

  lemma ReadIs(g: Grid, c: nat, ch: nat, i: nat, j: nat)
    requires g.Valid() && g.Cell(c, i, j) && ch < 21
    ensures CellOf(g, c, i, j).values[ch] == g.Read(c, ch, i, j)
  {
    OffsetInside(g.featW, g.featH, g.Count(), c, ch, i, j);
  }

  lemma PlaceIs(value: real, at: nat, stride: nat)
    ensures Place(value, at, stride) == PixelAt(value, at, stride)
  {
  }

  lemma SideIs(s: real, anchor: int)
    ensures Side(s, anchor) == Stretched(s, anchor as real)
  {
  }

  lemma BoxIs(cx: real, cy: real, w: real, h: real)
    ensures var b := BoxAt(cx, cy, w, h);
      (b.tlx + b.brx) / 2.0 == cx && (b.tly + b.bry) / 2.0 == cy && b.brx - b.tlx == w && b.bry - b.tly == h
  {
  }

  lemma MarkIs(g: Grid, c: nat, i: nat, j: nat, l: nat)
    requires g.Valid() && g.Cell(c, i, j) && l < 5
    ensures var v := CellOf(g, c, i, j).values;
      LandmarkAt(g, c, i, j, l) == Landmark(PixelAt(v[6 + 3 * l], j, g.stride), PixelAt(v[7 + 3 * l], i, g.stride), v[8 + 3 * l])
  {
    ReadIs(g, c, l * 3 + 6, i, j);
    ReadIs(g, c, l * 3 + 7, i, j);
    ReadIs(g, c, l * 3 + 8, i, j);
    PlaceIs(g.Read(c, l * 3 + 6, i, j), j, g.stride);
    PlaceIs(g.Read(c, l * 3 + 7, i, j), i, g.stride);
  }

  /** Each cell is decoded to the face its values stand for. */
  lemma DecodedShows(g: Grid, sigmoid: real -> real, c: nat, i: nat, j: nat)
    requires g.Valid() && g.Cell(c, i, j)
    ensures Shows(CellOf(g, c, i, j), sigmoid, Decoded(g, sigmoid, c, i, j))
  {
    forall l: nat | l < 5 {
      MarkIs(g, c, i, j, l);
    }
    ScoreIs(g, sigmoid, c, i, j);
    BoxShows(g, sigmoid, c, i, j);
    AreaIs(g, sigmoid, c, i, j);
  }

  lemma ScoreIs(g: Grid, sigmoid: real -> real, c: nat, i: nat, j: nat)
    requires g.Valid() && g.Cell(c, i, j)
    ensures var v := CellOf(g, c, i, j).values; Confidence(g, sigmoid, c, i, j) == sigmoid(v[4]) * sigmoid(v[5])
  {
    ReadIs(g, c, 4, i, j);
    ReadIs(g, c, 5, i, j);
  }

  lemma DecodedBox(g: Grid, sigmoid: real -> real, c: nat, i: nat, j: nat)
    requires g.Valid() && g.Cell(c, i, j)
    ensures var x := CellOf(g, c, i, j);
      Decoded(g, sigmoid, c, i, j).bbox
      == BoxAt(PixelAt(sigmoid(x.values[0]), j, x.stride), PixelAt(sigmoid(x.values[1]), i, x.stride),
               Stretched(sigmoid(x.values[2]), x.anchorW as real), Stretched(sigmoid(x.values[3]), x.anchorH as real))
  {
    ReadIs(g, c, 0, i, j);
    ReadIs(g, c, 1, i, j);
    ReadIs(g, c, 2, i, j);
    ReadIs(g, c, 3, i, j);
    PlaceIs(sigmoid(g.Read(c, 0, i, j)), j, g.stride);
    PlaceIs(sigmoid(g.Read(c, 1, i, j)), i, g.stride);
    SideIs(sigmoid(g.Read(c, 2, i, j)), g.anchors[c * 2]);
    SideIs(sigmoid(g.Read(c, 3, i, j)), g.anchors[c * 2 + 1]);
  }

  lemma BoxShows(g: Grid, sigmoid: real -> real, c: nat, i: nat, j: nat)
    requires g.Valid() && g.Cell(c, i, j)
    ensures var x, b := CellOf(g, c, i, j), Decoded(g, sigmoid, c, i, j).bbox;
      CentredAs(x, sigmoid, b) && SizedAs(x, sigmoid, b)
  {
    var x := CellOf(g, c, i, j);
    DecodedBox(g, sigmoid, c, i, j);
    BoxIs(PixelAt(sigmoid(x.values[0]), j, x.stride), PixelAt(sigmoid(x.values[1]), i, x.stride),
          Stretched(sigmoid(x.values[2]), x.anchorW as real), Stretched(sigmoid(x.values[3]), x.anchorH as real));
  }

  lemma AreaIs(g: Grid, sigmoid: real -> real, c: nat, i: nat, j: nat)
    requires g.Valid() && g.Cell(c, i, j)
    ensures var b := Decoded(g, sigmoid, c, i, j).bbox; b.area == (b.bry - b.tly) * (b.brx - b.tlx)
  {
    BoxArea(Place(sigmoid(g.Read(c, 0, i, j)), j, g.stride), Place(sigmoid(g.Read(c, 1, i, j)), i, g.stride),
            Side(sigmoid(g.Read(c, 2, i, j)), g.anchors[c * 2]), Side(sigmoid(g.Read(c, 3, i, j)), g.anchors[c * 2 + 1]));
  }

  lemma BoxArea(cx: real, cy: real, w: real, h: real)
    ensures var b := BoxAt(cx, cy, w, h); b.area == (b.bry - b.tly) * (b.brx - b.tlx)
  {
    var b := BoxAt(cx, cy, w, h);
    assert b.brx - b.tlx == w && b.bry - b.tly == h;
  }

  lemma SameBox(x: Cell, sigmoid: real -> real, f: Face, f': Face)
    requires |x.values| == 21 && ScoredAs(x, sigmoid, f) && ScoredAs(x, sigmoid, f')
    requires CentredAs(x, sigmoid, f.bbox) && CentredAs(x, sigmoid, f'.bbox)
    requires SizedAs(x, sigmoid, f.bbox) && SizedAs(x, sigmoid, f'.bbox)
    ensures f.bbox == f'.bbox
  {
    var b, b' := f.bbox, f'.bbox;
    assert b.tlx == (b.tlx + b.brx) / 2.0 - (b.brx - b.tlx) / 2.0;
    assert b'.tlx == (b'.tlx + b'.brx) / 2.0 - (b'.brx - b'.tlx) / 2.0;
    assert b.tly == (b.tly + b.bry) / 2.0 - (b.bry - b.tly) / 2.0;
    assert b'.tly == (b'.tly + b'.bry) / 2.0 - (b'.bry - b'.tly) / 2.0;
  }

  /** A cell's values stand for one face only. */
  lemma ShowsOne(x: Cell, sigmoid: real -> real, f: Face, f': Face)
    requires |x.values| == 21 && Shows(x, sigmoid, f) && Shows(x, sigmoid, f')
    ensures f == f'
  {
    SameBox(x, sigmoid, f, f');
    forall l | 0 <= l < 5 ensures f.landmarks[l] == f'.landmarks[l] {
    }
  }

  /** The proposals of an output are the faces that the values of its cells stand for and whose score passes. */
  ghost predicate Proposed(g: Grid, sigmoid: real -> real, thresh: real, f: Face, c: nat, i: nat, j: nat) {
    c < |g.anchors| / 2 && i < g.featH && j < g.featW && f.score > thresh && Shows(CellOf(g, c, i, j), sigmoid, f)
  }

  lemma ProposedIs(g: Grid, sigmoid: real -> real, thresh: real, f: Face, c: nat, i: nat, j: nat)
    requires g.Valid()
    ensures FromCell(g, sigmoid, thresh, f, c, i, j) <==> Proposed(g, sigmoid, thresh, f, c, i, j)
  {
    if g.Cell(c, i, j) {
      DecodedShows(g, sigmoid, c, i, j);
      if Proposed(g, sigmoid, thresh, f, c, i, j) {
        ShowsOne(CellOf(g, c, i, j), sigmoid, f, Decoded(g, sigmoid, c, i, j));
      }
    }
  }

  lemma ProposalsAre(g: Grid, sigmoid: real -> real, thresh: real, f: Face)
    requires g.Valid()
    ensures f in AllCandidates(g, sigmoid, thresh) <==> exists c, i, j :: Proposed(g, sigmoid, thresh, f, c, i, j)
  {
    CandidatesComplete(g, sigmoid, thresh, f);
    if c: nat, i: nat, j: nat :| FromCell(g, sigmoid, thresh, f, c, i, j) {
      ProposedIs(g, sigmoid, thresh, f, c, i, j);
    }
    if c: nat, i: nat, j: nat :| Proposed(g, sigmoid, thresh, f, c, i, j) {
      ProposedIs(g, sigmoid, thresh, f, c, i, j);
    }
  }

  // ---------- the box alone ----------

  /** The middle of the box lies in the cell or less than half a cell outside, and its sides are less than four times the anchor's. */
  predicate Near(b: BBox, row: nat, column: nat, stride: nat, anchorW: int, anchorH: int) {
    && Pixels(column as real - 0.5, stride) < (b.tlx + b.brx) / 2.0 < Pixels(column as real + 1.5, stride)
    && Pixels(row as real - 0.5, stride) < (b.tly + b.bry) / 2.0 < Pixels(row as real + 1.5, stride)
    && 0.0 < b.brx - b.tlx < 4.0 * anchorW as real
    && 0.0 < b.bry - b.tly < 4.0 * anchorH as real
  }

  lemma Monotone(a: real, b: real, unit: real)
    requires a < b && unit > 0.0
    ensures a * unit < b * unit
  {
  }

  lemma Inside(sigmoid: real -> real, v: real)
    requires IsSigmoid(sigmoid)
    ensures 0.0 < sigmoid(v) < 1.0
  {
  }

  lemma PixelsMonotone(a: real, b: real, stride: nat)
    requires a < b && stride > 0
    ensures Pixels(a, stride) < Pixels(b, stride)
  {
    Monotone(a, b, stride as real);
  }

  lemma PixelNear(s: real, at: nat, stride: nat)
    requires 0.0 < s < 1.0 && stride > 0
    ensures Pixels(at as real - 0.5, stride) < PixelAt(s, at, stride) < Pixels(at as real + 1.5, stride)
  {
    PixelsMonotone(at as real - 0.5, 2.0 * s - 0.5 + at as real, stride);
    PixelsMonotone(2.0 * s - 0.5 + at as real, at as real + 1.5, stride);
  }

  lemma Doubled(s: real, a: real)
    requires 0.0 < s < 1.0 && a > 0.0
    ensures 0.0 < 2.0 * s * a < 2.0 * a
  {
    assert s * a < 1.0 * a;
  }

  lemma StretchedNear(s: real, a: real)
    requires 0.0 < s < 1.0 && a > 0.0
    ensures 0.0 < Stretched(s, a) < 4.0 * a
  {
    Doubled(s, a);
    Doubled(s, 2.0 * s * a);
  }

  lemma ShownNear(x: Cell, sigmoid: real -> real, f: Face)
    requires |x.values| == 21 && Shows(x, sigmoid, f) && IsSigmoid(sigmoid)
    requires x.stride > 0 && x.anchorW > 0 && x.anchorH > 0
    ensures Near(f.bbox, x.row, x.column, x.stride, x.anchorW, x.anchorH)
  {
    Inside(sigmoid, x.values[0]);
    Inside(sigmoid, x.values[1]);
    Inside(sigmoid, x.values[2]);
    Inside(sigmoid, x.values[3]);
    PixelNear(sigmoid(x.values[0]), x.column, x.stride);
    PixelNear(sigmoid(x.values[1]), x.row, x.stride);
    StretchedNear(sigmoid(x.values[2]), x.anchorW as real);
    StretchedNear(sigmoid(x.values[3]), x.anchorH as real);
  }

  /** A decoded face lies near its cell, whatever the values. */
  lemma DecodedNear(g: Grid, sigmoid: real -> real, c: nat, i: nat, j: nat)
    requires g.Valid() && g.Cell(c, i, j) && IsSigmoid(sigmoid)
    ensures Near(Decoded(g, sigmoid, c, i, j).bbox, i, j, g.stride, g.anchors[2 * c], g.anchors[2 * c + 1])
  {
    DecodedShows(g, sigmoid, c, i, j);
    ShownNear(CellOf(g, c, i, j), sigmoid, Decoded(g, sigmoid, c, i, j));
  }

  // ---------- each passing cell once, in order ----------

  /** A place in the order in which cells are visited. */
  datatype Spot = Spot(c: nat, i: nat, j: nat)

  ghost predicate Listed(g: Grid, sigmoid: real -> real, thresh: real, faces: seq<Face>, places: seq<Spot>)
    requires g.Valid()
  {
    && |faces| == |places|
    && (forall k :: 0 <= k < |places| ==> FromCell(g, sigmoid, thresh, faces[k], places[k].c, places[k].i, places[k].j))
    && (forall k, l :: 0 <= k < l < |places| ==> Earlier(places[k].c, places[k].i, places[k].j, places[l].c, places[l].i, places[l].j))
  }

  ghost predicate AllEarlier(places: seq<Spot>, c: nat, i: nat, j: nat) {
    forall k :: 0 <= k < |places| ==> Earlier(places[k].c, places[k].i, places[k].j, c, i, j)
  }

  lemma ListedMore(g: Grid, sigmoid: real -> real, thresh: real, faces: seq<Face>, places: seq<Spot>, p: Spot)
    requires g.Valid() && Listed(g, sigmoid, thresh, faces, places) && AllEarlier(places, p.c, p.i, p.j)
    requires g.Cell(p.c, p.i, p.j) && Confidence(g, sigmoid, p.c, p.i, p.j) > thresh
    ensures Listed(g, sigmoid, thresh, faces + [Decoded(g, sigmoid, p.c, p.i, p.j)], places + [p])
  {
  }

  lemma {:induction false} ListedBefore(g: Grid, sigmoid: real -> real, thresh: real, c: nat, i: nat, j: nat) returns (places: seq<Spot>)
    requires g.Valid() && c <= g.Count() && i <= g.featH && j <= g.featW
    requires (i > 0 || j > 0 ==> c < g.Count()) && (j > 0 ==> i < g.featH)
    ensures Listed(g, sigmoid, thresh, Candidates(g, sigmoid, thresh, c, i, j), places)
    ensures AllEarlier(places, c, i, j)
    decreases c, i, j
  {
    if j > 0 {
      places := ListedBefore(g, sigmoid, thresh, c, i, j - 1);
      if Confidence(g, sigmoid, c, i, j - 1) > thresh {
        ListedMore(g, sigmoid, thresh, Candidates(g, sigmoid, thresh, c, i, j - 1), places, Spot(c, i, j - 1));
        places := places + [Spot(c, i, j - 1)];
      }
    } else if i > 0 {
      places := ListedBefore(g, sigmoid, thresh, c, i - 1, g.featW);
    } else if c > 0 {
      places := ListedBefore(g, sigmoid, thresh, c - 1, g.featH, 0);
    } else {
      places := [];
    }
  }

  /** No cell is proposed twice, and the proposals come in the order of the cells. */
  lemma ProposedInOrder(g: Grid, sigmoid: real -> real, thresh: real)
    requires g.Valid()
    ensures exists places :: Listed(g, sigmoid, thresh, AllCandidates(g, sigmoid, thresh), places)
  {
    var places := ListedBefore(g, sigmoid, thresh, g.Count(), 0, 0);
    assert Listed(g, sigmoid, thresh, AllCandidates(g, sigmoid, thresh), places);
  }
}
