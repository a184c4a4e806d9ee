/**
 Decoding the detector's output grids into candidate faces. The network's `sigmoid` is any function into
 the open interval from 0 to 1.
 */
module FaceProposals {
  import opened Face

  const CHANNELS := 21

  ghost predicate IsSigmoid(f: real -> real) {
    forall x :: 0.0 < f(x) < 1.0
  }

  /** One output of the network: for each pair of anchor sides, 21 planes of `featH` rows of `featW` cells. */
  datatype Grid = Grid(inputs: seq<real>, anchors: seq<int>, featW: nat, featH: nat, stride: nat) {
    function Count(): nat {
      |anchors| / 2
    }

    ghost predicate Valid() {
      && stride > 0
      && (forall k :: 0 <= k < |anchors| ==> anchors[k] > 0)
      && |inputs| >= Planes(featW * featH, CHANNELS * Count())
    }

    predicate Cell(c: nat, i: nat, j: nat) {
      c < Count() && i < featH && j < featW
    }

    /** The value of one channel of one cell. */
    function Read(c: nat, ch: nat, i: nat, j: nat): real
      requires Valid() && Cell(c, i, j) && ch < CHANNELS
    {
      OffsetInside(featW, featH, Count(), c, ch, i, j);
      inputs[Offset(featW, featH, c, ch, i, j)]
    }
  }

  function Planes(size: nat, count: nat): nat {
    size * count
  }

  function Offset(w: nat, h: nat, c: nat, ch: nat, i: nat, j: nat): nat {
    w * h * (c * CHANNELS + ch) + (i * w + j)
  }

  lemma CellInside(w: nat, h: nat, i: nat, j: nat)
    requires i < h && j < w
    ensures i * w + j < w * h
  {
    assert (i + 1) * w <= h * w;
  }

  /** Every index the decoder reads lies inside the buffer. */
  lemma OffsetInside(w: nat, h: nat, count: nat, c: nat, ch: nat, i: nat, j: nat)
    requires c < count && ch < CHANNELS && i < h && j < w
    ensures Offset(w, h, c, ch, i, j) < Planes(w * h, CHANNELS * count)
  {
    CellInside(w, h, i, j);
    assert c * CHANNELS + ch + 1 <= CHANNELS * count;
    Below(w * h, c * CHANNELS + ch, CHANNELS * count, i * w + j);
  }

  lemma Below(size: nat, k: nat, count: nat, rest: nat)
    requires k < count && rest < size
    ensures size * k + rest < size * count
  {
    assert size * (k + 1) <= size * count;
  }

  lemma DivisionUnique(size: nat, k: nat, rest: nat, k': nat, rest': nat)
    requires rest < size && rest' < size && size * k + rest == size * k' + rest'
    ensures k == k' && rest == rest'
  {
    if k < k' {
      Below(size, k, k', rest);
    } else if k' < k {
      Below(size, k', k, rest');
    }
  }

  /** Different channels of different cells lie at different indices. */
  lemma OffsetInjective(w: nat, h: nat, c: nat, ch: nat, i: nat, j: nat, c': nat, ch': nat, i': nat, j': nat)
    requires ch < CHANNELS && ch' < CHANNELS && i < h && i' < h && j < w && j' < w
    requires Offset(w, h, c, ch, i, j) == Offset(w, h, c', ch', i', j')
    ensures c == c' && ch == ch' && i == i' && j == j'
  {
    CellInside(w, h, i, j);
    CellInside(w, h, i', j');
    DivisionUnique(w * h, c * CHANNELS + ch, i * w + j, c' * CHANNELS + ch', i' * w + j');
    assert w * i + j == w * i' + j';
    DivisionUnique(w, i, j, i', j');
  }

  function Confidence(g: Grid, sigmoid: real -> real, c: nat, i: nat, j: nat): real
    requires g.Valid() && g.Cell(c, i, j)
  {
    sigmoid(g.Read(c, 4, i, j)) * sigmoid(g.Read(c, 5, i, j))
  }

  function Times(x: real, y: real): (r: real)
    ensures x > 0.0 && y > 0.0 ==> r > 0.0
  {
    x * y
  }

  function Side(s: real, anchor: int): real {
    Times(Times(s * 2.0, s * 2.0), anchor as real)
  }

  function Place(value: real, at: nat, stride: nat): real {
    (value * 2.0 - 0.5 + at as real) * stride as real
  }

  function BoxAt(cx: real, cy: real, w: real, h: real): BBox {
    BBox(cx - w * 0.5, cy - h * 0.5, cx + w * 0.5, cy + h * 0.5, h * w)
  }

  function LandmarkAt(g: Grid, c: nat, i: nat, j: nat, l: nat): Landmark
    requires g.Valid() && g.Cell(c, i, j) && l < 5
  {
    Landmark(Place(g.Read(c, l * 3 + 6, i, j), j, g.stride), Place(g.Read(c, l * 3 + 7, i, j), i, g.stride),
             g.Read(c, l * 3 + 8, i, j))
  }

  /** The face one cell stands for. */
  function Decoded(g: Grid, sigmoid: real -> real, c: nat, i: nat, j: nat): Face
    requires g.Valid() && g.Cell(c, i, j)
  {
    Face(BoxAt(Place(sigmoid(g.Read(c, 0, i, j)), j, g.stride), Place(sigmoid(g.Read(c, 1, i, j)), i, g.stride),
               Side(sigmoid(g.Read(c, 2, i, j)), g.anchors[c * 2]), Side(sigmoid(g.Read(c, 3, i, j)), g.anchors[c * 2 + 1])),
         Confidence(g, sigmoid, c, i, j),
         seq(5, l requires 0 <= l < 5 => LandmarkAt(g, c, i, j, l)))
  }

  /** The faces of all cells before `(c, i, j)` whose confidence passes, in order. */
  function Candidates(g: Grid, sigmoid: real -> real, thresh: real, c: nat, i: nat, j: nat): seq<Face>
    requires g.Valid() && c <= g.Count() && i <= g.featH && j <= g.featW
    requires (i > 0 || j > 0 ==> c < g.Count()) && (j > 0 ==> i < g.featH)
    decreases c, i, j
  {
    if j > 0 then
      var before := Candidates(g, sigmoid, thresh, c, i, j - 1);
      if Confidence(g, sigmoid, c, i, j - 1) > thresh then before + [Decoded(g, sigmoid, c, i, j - 1)] else before
    else if i > 0 then Candidates(g, sigmoid, thresh, c, i - 1, g.featW)
    else if c > 0 then Candidates(g, sigmoid, thresh, c - 1, g.featH, 0)
    else []
  }

  function AllCandidates(g: Grid, sigmoid: real -> real, thresh: real): seq<Face>
    requires g.Valid()
  {
    Candidates(g, sigmoid, thresh, g.Count(), 0, 0)
  }

  /** `f` is decoded from a cell whose confidence passes. */
  ghost predicate FromCell(g: Grid, sigmoid: real -> real, thresh: real, f: Face, c: nat, i: nat, j: nat)
    requires g.Valid()
  {
    g.Cell(c, i, j) && Confidence(g, sigmoid, c, i, j) > thresh && f == Decoded(g, sigmoid, c, i, j)
  }

  predicate Earlier(x: nat, y: nat, z: nat, c: nat, i: nat, j: nat) {
    x < c || (x == c && (y < i || (y == i && z < j)))
  }

  lemma {:induction false} CandidateOf(g: Grid, sigmoid: real -> real, thresh: real, c: nat, i: nat, j: nat, f: Face)
    returns (x: nat, y: nat, z: nat)
    requires g.Valid() && c <= g.Count() && i <= g.featH && j <= g.featW
    requires (i > 0 || j > 0 ==> c < g.Count()) && (j > 0 ==> i < g.featH)
    requires f in Candidates(g, sigmoid, thresh, c, i, j)
    ensures FromCell(g, sigmoid, thresh, f, x, y, z) && Earlier(x, y, z, c, i, j)
    decreases c, i, j
  {
    if j > 0 {
      if f in Candidates(g, sigmoid, thresh, c, i, j - 1) {
        x, y, z := CandidateOf(g, sigmoid, thresh, c, i, j - 1, f);
      } else {
        x, y, z := c, i, j - 1;
      }
    } else if i > 0 {
      x, y, z := CandidateOf(g, sigmoid, thresh, c, i - 1, g.featW, f);
    } else if c > 0 {
      x, y, z := CandidateOf(g, sigmoid, thresh, c - 1, g.featH, 0, f);
    }
  }

  lemma {:induction false} CellIsCandidate(g: Grid, sigmoid: real -> real, thresh: real, c: nat, i: nat, j: nat, x: nat, y: nat, z: nat)
    requires g.Valid() && c <= g.Count() && i <= g.featH && j <= g.featW
    requires (i > 0 || j > 0 ==> c < g.Count()) && (j > 0 ==> i < g.featH)
    requires g.Cell(x, y, z) && Earlier(x, y, z, c, i, j) && Confidence(g, sigmoid, x, y, z) > thresh
    ensures Decoded(g, sigmoid, x, y, z) in Candidates(g, sigmoid, thresh, c, i, j)
    decreases c, i, j
  {
    if j > 0 {
      if x != c || y != i || z != j - 1 {
        CellIsCandidate(g, sigmoid, thresh, c, i, j - 1, x, y, z);
      }
    } else if i > 0 {
      CellIsCandidate(g, sigmoid, thresh, c, i - 1, g.featW, x, y, z);
    } else {
      CellIsCandidate(g, sigmoid, thresh, c - 1, g.featH, 0, x, y, z);
    }
  }

  /** The candidates are the faces of exactly those cells whose confidence passes. */
  lemma CandidatesComplete(g: Grid, sigmoid: real -> real, thresh: real, f: Face)
    requires g.Valid()
    ensures f in AllCandidates(g, sigmoid, thresh) <==> exists c, i, j :: FromCell(g, sigmoid, thresh, f, c, i, j)
  {
    if f in AllCandidates(g, sigmoid, thresh) {
      var c, i, j := CandidateOf(g, sigmoid, thresh, g.Count(), 0, 0, f);
    }
    if c: nat, i: nat, j: nat :| FromCell(g, sigmoid, thresh, f, c, i, j) {
      CellIsCandidate(g, sigmoid, thresh, g.Count(), 0, 0, c, i, j);
    }
  }

  /** Testing the objectness first drops no cell whose confidence would pass. */
  lemma ObjectnessFirst(s: real, k: real, thresh: real)
    requires 0.0 < s < 1.0 && 0.0 < k < 1.0 && s * k > thresh
    ensures s > thresh
  {
    assert s * k < s * 1.0;
  }

  /** A decoded box has positive sides and its area is their product; its score lies between 0 and 1. */
  lemma DecodedProper(g: Grid, sigmoid: real -> real, c: nat, i: nat, j: nat)
    requires g.Valid() && g.Cell(c, i, j) && IsSigmoid(sigmoid)
    ensures Proper(Decoded(g, sigmoid, c, i, j).bbox)
    ensures 0.0 < Decoded(g, sigmoid, c, i, j).score < 1.0
  {
    var w, h := Side(sigmoid(g.Read(c, 2, i, j)), g.anchors[c * 2]), Side(sigmoid(g.Read(c, 3, i, j)), g.anchors[c * 2 + 1]);
    BoxProper(Place(sigmoid(g.Read(c, 0, i, j)), j, g.stride), Place(sigmoid(g.Read(c, 1, i, j)), i, g.stride), w, h);
    ProductInside(sigmoid(g.Read(c, 4, i, j)), sigmoid(g.Read(c, 5, i, j)));
  }

  lemma BoxProper(cx: real, cy: real, w: real, h: real)
    requires w > 0.0 && h > 0.0
    ensures Proper(BoxAt(cx, cy, w, h))
  {
    var b := BoxAt(cx, cy, w, h);
    assert b.brx - b.tlx == w && b.bry - b.tly == h;
  }

  lemma ProductInside(s: real, k: real)
    requires 0.0 < s < 1.0 && 0.0 < k < 1.0
    ensures 0.0 < s * k < 1.0
  {
    assert s * k < s * 1.0;
  }

  /** Decodes one cell if it passes both tests. */
  method DecodeCell(g: Grid, sigmoid: real -> real, thresh: real, c: nat, i: nat, j: nat, proposals: seq<Face>)
    returns (r: seq<Face>)
    requires g.Valid() && g.Cell(c, i, j) && IsSigmoid(sigmoid)
    ensures r == if Confidence(g, sigmoid, c, i, j) > thresh then proposals + [Decoded(g, sigmoid, c, i, j)] else proposals
  {
    r := proposals;
    var boxScore := sigmoid(g.Read(c, 4, i, j));
    if Confidence(g, sigmoid, c, i, j) > thresh {
      ObjectnessFirst(boxScore, sigmoid(g.Read(c, 5, i, j)), thresh);
    }
    if boxScore > thresh {
      var confidence := sigmoid(g.Read(c, 4, i, j)) * sigmoid(g.Read(c, 5, i, j));
      if confidence > thresh {
        var dx, dy := sigmoid(g.Read(c, 0, i, j)), sigmoid(g.Read(c, 1, i, j));
        var dw, dh := sigmoid(g.Read(c, 2, i, j)), sigmoid(g.Read(c, 3, i, j));
        var cx, cy := Place(dx, j, g.stride), Place(dy, i, g.stride);
        var w, h := Side(dw, g.anchors[c * 2]), Side(dh, g.anchors[c * 2 + 1]);
        var landmarks := [];
        for l := 0 to 5
          invariant |landmarks| == l && forall k :: 0 <= k < l ==> landmarks[k] == LandmarkAt(g, c, i, j, k)
        {
          landmarks := landmarks + [LandmarkAt(g, c, i, j, l)];
        }
        assert landmarks == Decoded(g, sigmoid, c, i, j).landmarks;
        r := proposals + [Face(BoxAt(cx, cy, w, h), confidence, landmarks)];
      }
    }
  }

  method DecodeRow(g: Grid, sigmoid: real -> real, thresh: real, c: nat, i: nat, proposals: seq<Face>, ghost base: seq<Face>)
    returns (r: seq<Face>)
    requires g.Valid() && c < g.Count() && i < g.featH && IsSigmoid(sigmoid)
    requires proposals == base + Candidates(g, sigmoid, thresh, c, i, 0)
    ensures r == base + Candidates(g, sigmoid, thresh, c, i, g.featW)
  {
    r := proposals;
    for j := 0 to g.featW
      invariant r == base + Candidates(g, sigmoid, thresh, c, i, j)
    {
      ghost var before := Candidates(g, sigmoid, thresh, c, i, j);
      r := DecodeCell(g, sigmoid, thresh, c, i, j, r);
      assert base + before + [Decoded(g, sigmoid, c, i, j)] == base + (before + [Decoded(g, sigmoid, c, i, j)]);
    }
  }

  /** All cells of a grid decoded, appended to the proposals so far. */
  method GenerateProposals(inputs: seq<real>, anchor: seq<int>, inputW: nat, inputH: nat, stride: nat, thresh: real,
                           sigmoid: real -> real, proposals: seq<Face>)
    returns (r: seq<Face>)
    requires stride > 0 && Grid(inputs, anchor, inputW / stride, inputH / stride, stride).Valid() && IsSigmoid(sigmoid)
    ensures r == proposals + AllCandidates(Grid(inputs, anchor, inputW / stride, inputH / stride, stride), sigmoid, thresh)
  {
    var g := Grid(inputs, anchor, inputW / stride, inputH / stride, stride);
    r := proposals;
    for c := 0 to g.Count()
      invariant r == proposals + Candidates(g, sigmoid, thresh, c, 0, 0)
    {
      for i := 0 to g.featH
        invariant r == proposals + Candidates(g, sigmoid, thresh, c, i, 0)
      {
        r := DecodeRow(g, sigmoid, thresh, c, i, r, proposals);
      }
    }
  }
}
