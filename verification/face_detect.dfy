/**
 The whole post-processing: three grids decoded, sorted, suppressed, and rounded for the caller.
 */
module FaceDetect {
  import opened Face
  import opened FaceNms
  import opened FaceProposals
  import opened FaceDecode
  import FaceSort

  /** A reported face: whole pixels. */
  datatype Report = Report(tlx: int, tly: int, brx: int, bry: int, width: int, height: int, score: real, marks: seq<(int, int)>)

  /** The conversion of a real to an integer: towards zero. */
  function Truncate(x: real): int {
    if x >= 0.0 then x.Floor else -(-x).Floor
  }

  function Round(x: real): int {
    Truncate(x + 0.5)
  }

  /** From minus a half on, rounding moves by at most a half; below, by less than one and a half, upwards. */
  lemma RoundError(x: real)
    ensures x >= -0.5 ==> x - 0.5 < Round(x) as real <= x + 0.5
    ensures x < -0.5 ==> x + 0.5 <= Round(x) as real < x + 1.5
  {
  }

  function Reported(f: Face): Report {
    var x, y, x', y' := Round(f.bbox.tlx), Round(f.bbox.tly), Round(f.bbox.brx), Round(f.bbox.bry);
    Report(x, y, x', y', x' - x, y' - y, f.score,
           seq(|f.landmarks|, l requires 0 <= l < |f.landmarks| => (Round(f.landmarks[l].x), Round(f.landmarks[l].y))))
  }

  /** The whole pixel a place is reported as. */
  predicate RoundsTo(x: real, n: int) {
    if x >= -0.5 then x - 0.5 < n as real <= x + 0.5 else x + 0.5 <= n as real < x + 1.5
  }

  /** A report gives each corner and landmark rounded, the sides between the rounded corners, and the score as it is. */
  lemma ReportedNear(f: Face)
    ensures var r := Reported(f);
      && RoundsTo(f.bbox.tlx, r.tlx) && RoundsTo(f.bbox.tly, r.tly) && RoundsTo(f.bbox.brx, r.brx) && RoundsTo(f.bbox.bry, r.bry)
      && r.width == r.brx - r.tlx && r.height == r.bry - r.tly && r.score == f.score
      && |r.marks| == |f.landmarks|
      && forall l :: 0 <= l < |r.marks| ==> RoundsTo(f.landmarks[l].x, r.marks[l].0) && RoundsTo(f.landmarks[l].y, r.marks[l].1)
  {
    RoundError(f.bbox.tlx);
    RoundError(f.bbox.tly);
    RoundError(f.bbox.brx);
    RoundError(f.bbox.bry);
    forall l | 0 <= l < |f.landmarks|
      ensures RoundsTo(f.landmarks[l].x, Reported(f).marks[l].0) && RoundsTo(f.landmarks[l].y, Reported(f).marks[l].1)
    {
      RoundError(f.landmarks[l].x);
      RoundError(f.landmarks[l].y);
    }
  }

  lemma TruncateMonotone(x: real, y: real)
    requires x <= y
    ensures Truncate(x) <= Truncate(y)
  {
  }

  /** A reported box keeps its corners in order. */
  lemma ReportedInOrder(f: Face)
    requires Proper(f.bbox)
    ensures Reported(f).width >= 0 && Reported(f).height >= 0
  {
    TruncateMonotone(f.bbox.tlx + 0.5, f.bbox.brx + 0.5);
    TruncateMonotone(f.bbox.tly + 0.5, f.bbox.bry + 0.5);
  }

  /**
   What detection owes its caller: some of the candidates, best first, no two overlapping too much, and
   every other candidate overlapped too much by one that scores at least as well.
   */
  ghost predicate IsDetection(kept: seq<Face>, candidates: seq<Face>, threshold: real) {
    && multiset(kept) <= multiset(candidates)
    && (forall f :: f in candidates ==> Proper(f.bbox))
    && (forall f :: f in kept ==> f in candidates)
    && (forall k, l :: 0 <= k < l < |kept| ==> kept[k].score >= kept[l].score && Overlap(kept[l].bbox, kept[k].bbox) <= threshold)
    && (forall f :: f in candidates && f !in kept ==> Outdone(f, kept, threshold))
  }

  ghost predicate Outdone(f: Face, kept: seq<Face>, threshold: real)
    requires Proper(f.bbox) && forall g :: g in kept ==> Proper(g.bbox)
  {
    exists g :: g in kept && g.score >= f.score && Overlap(f.bbox, g.bbox) > threshold
  }

  function Select(faces: seq<Face>, picked: seq<nat>): seq<Face>
    requires forall k :: 0 <= k < |picked| ==> picked[k] < |faces|
  {
    seq(|picked|, k requires 0 <= k < |picked| => faces[picked[k]])
  }

  lemma SelectHas(faces: seq<Face>, picked: seq<nat>, i: nat)
    requires forall k :: 0 <= k < |picked| ==> picked[k] < |faces|
    requires i in picked
    ensures faces[i] in Select(faces, picked)
  {
    var k :| 0 <= k < |picked| && picked[k] == i;
    assert Select(faces, picked)[k] == faces[i];
  }

  lemma {:induction false} SelectInside(faces: seq<Face>, picked: seq<nat>, n: nat)
    requires n <= |faces| && Increasing(picked) && forall k :: 0 <= k < |picked| ==> picked[k] < n
    ensures multiset(Select(faces, picked)) <= multiset(faces[..n])
    decreases |picked|
  {
    if |picked| > 0 {
      var last := |picked| - 1;
      var x := picked[last];
      SelectInside(faces, picked[..last], x);
      assert Select(faces, picked) == Select(faces, picked[..last]) + [faces[x]];
      assert faces[..n] == faces[..x] + [faces[x]] + faces[x + 1..n];
    }
  }

  /** Suppression after sorting is detection, whatever the order the candidates came in. */
  lemma SuppressionDetects(sorted: seq<Face>, candidates: seq<Face>, picked: seq<nat>, threshold: real)
    requires multiset(sorted) == multiset(candidates) && AllProper(sorted)
    requires forall k, l :: 0 <= k < l < |sorted| ==> sorted[k].score >= sorted[l].score
    requires IsNms(picked, Exceeding(sorted, threshold), |sorted|)
    ensures IsDetection(Select(sorted, picked), candidates, threshold)
  {
    var kept := Select(sorted, picked);
    SelectInside(sorted, picked, |sorted|);
    assert sorted[..|sorted|] == sorted;
    SameElements(sorted, candidates);
    forall f | f in candidates && f !in kept ensures Outdone(f, kept, threshold) {
      var i: nat :| i < |sorted| && sorted[i] == f;
      if i in picked {
        SelectHas(sorted, picked, i);
        assert false;
      }
      SuppressedByBetter(sorted, picked, threshold, i);
      var m :| m in picked && m < |sorted| && sorted[m].score >= f.score && Exceeds(sorted, threshold, i, m);
      SelectHas(sorted, picked, m);
    }
    forall k, l | 0 <= k < l < |kept| ensures kept[k].score >= kept[l].score && Overlap(kept[l].bbox, kept[k].bbox) <= threshold {
      assert !Exceeding(sorted, threshold)(picked[l], picked[k]);
    }
  }

  lemma SameElements(s: seq<Face>, t: seq<Face>)
    requires multiset(s) == multiset(t)
    ensures forall f :: f in s <==> f in t
  {
    assert forall f :: f in s <==> f in multiset(s);
    assert forall f :: f in t <==> f in multiset(t);
  }

  const ANCHORS8 := [4, 5, 6, 8, 10, 12]
  const ANCHORS16 := [15, 19, 23, 30, 39, 52]
  const ANCHORS32 := [72, 97, 123, 164, 209, 297]

  function GridOf(input: seq<real>, anchors: seq<int>, width: nat, height: nat, stride: nat): Grid
    requires stride > 0
  {
    Grid(input, anchors, width / stride, height / stride, stride)
  }

  /** Every output of the network is large enough for the image. */
  ghost predicate Outputs(inputs: seq<seq<real>>, width: nat, height: nat) {
    && |inputs| == 3
    && GridOf(inputs[0], ANCHORS8, width, height, 8).Valid()
    && GridOf(inputs[1], ANCHORS16, width, height, 16).Valid()
    && GridOf(inputs[2], ANCHORS32, width, height, 32).Valid()
  }

  function CandidatesOf(inputs: seq<seq<real>>, width: nat, height: nat, sigmoid: real -> real, thresh: real): seq<Face>
    requires Outputs(inputs, width, height)
  {
    AllCandidates(GridOf(inputs[0], ANCHORS8, width, height, 8), sigmoid, thresh)
    + AllCandidates(GridOf(inputs[1], ANCHORS16, width, height, 16), sigmoid, thresh)
    + AllCandidates(GridOf(inputs[2], ANCHORS32, width, height, 32), sigmoid, thresh)
  }

  lemma CandidatesProper(g: Grid, sigmoid: real -> real, thresh: real)
    requires g.Valid() && IsSigmoid(sigmoid)
    ensures forall f :: f in AllCandidates(g, sigmoid, thresh) ==> Proper(f.bbox)
  {
    forall f | f in AllCandidates(g, sigmoid, thresh) ensures Proper(f.bbox) {
      var c, i, j := CandidateOf(g, sigmoid, thresh, g.Count(), 0, 0, f);
      DecodedProper(g, sigmoid, c, i, j);
    }
  }

  /** The candidates are the faces that the values of some cell of the three outputs stand for, with a passing score. */
  lemma CandidatesAre(inputs: seq<seq<real>>, width: nat, height: nat, sigmoid: real -> real, thresh: real, f: Face)
    requires Outputs(inputs, width, height)
    ensures f in CandidatesOf(inputs, width, height, sigmoid, thresh) <==>
      || (exists c, i, j :: Proposed(Grid(inputs[0], [4, 5, 6, 8, 10, 12], width / 8, height / 8, 8), sigmoid, thresh, f, c, i, j))
      || (exists c, i, j :: Proposed(Grid(inputs[1], [15, 19, 23, 30, 39, 52], width / 16, height / 16, 16), sigmoid, thresh, f, c, i, j))
      || (exists c, i, j :: Proposed(Grid(inputs[2], [72, 97, 123, 164, 209, 297], width / 32, height / 32, 32), sigmoid, thresh, f, c, i, j))
  {
    ProposalsAre(GridOf(inputs[0], ANCHORS8, width, height, 8), sigmoid, thresh, f);
    ProposalsAre(GridOf(inputs[1], ANCHORS16, width, height, 16), sigmoid, thresh, f);
    ProposalsAre(GridOf(inputs[2], ANCHORS32, width, height, 32), sigmoid, thresh, f);
  }

  /** A box near some cell of a grid over the picture, of about an anchor's size. */
  ghost predicate OnGrid(b: BBox, width: nat, height: nat, stride: nat, anchorW: int, anchorH: int) {
    stride > 0 && exists i: nat, j: nat :: i < height / stride && j < width / stride && Near(b, i, j, stride, anchorW, anchorH)
  }

  ghost predicate OnSomeGrid(b: BBox, width: nat, height: nat) {
    || OnGrid(b, width, height, 8, 4, 5) || OnGrid(b, width, height, 8, 6, 8) || OnGrid(b, width, height, 8, 10, 12)
    || OnGrid(b, width, height, 16, 15, 19) || OnGrid(b, width, height, 16, 23, 30) || OnGrid(b, width, height, 16, 39, 52)
    || OnGrid(b, width, height, 32, 72, 97) || OnGrid(b, width, height, 32, 123, 164) || OnGrid(b, width, height, 32, 209, 297)
  }

  lemma GridFaces(g: Grid, width: nat, height: nat, sigmoid: real -> real, thresh: real, f: Face) returns (c: nat)
    requires g.Valid() && IsSigmoid(sigmoid) && f in AllCandidates(g, sigmoid, thresh)
    requires g.featW == width / g.stride && g.featH == height / g.stride
    ensures c < |g.anchors| / 2 && OnGrid(f.bbox, width, height, g.stride, g.anchors[2 * c], g.anchors[2 * c + 1]) && f.score > thresh
  {
    var i, j;
    c, i, j := CandidateOf(g, sigmoid, thresh, g.Count(), 0, 0, f);
    DecodedNear(g, sigmoid, c, i, j);
  }

  /** Every candidate lies on one of the grids and has a passing score. */
  lemma CandidatesLie(inputs: seq<seq<real>>, width: nat, height: nat, sigmoid: real -> real, thresh: real)
    requires Outputs(inputs, width, height) && IsSigmoid(sigmoid)
    ensures forall f :: f in CandidatesOf(inputs, width, height, sigmoid, thresh) ==> OnSomeGrid(f.bbox, width, height) && f.score > thresh
  {
    forall f | f in CandidatesOf(inputs, width, height, sigmoid, thresh) ensures OnSomeGrid(f.bbox, width, height) && f.score > thresh {
      if f in AllCandidates(GridOf(inputs[0], ANCHORS8, width, height, 8), sigmoid, thresh) {
        var c := GridFaces(GridOf(inputs[0], ANCHORS8, width, height, 8), width, height, sigmoid, thresh, f);
        assert c == 0 || c == 1 || c == 2;
      } else if f in AllCandidates(GridOf(inputs[1], ANCHORS16, width, height, 16), sigmoid, thresh) {
        var c := GridFaces(GridOf(inputs[1], ANCHORS16, width, height, 16), width, height, sigmoid, thresh, f);
        assert c == 0 || c == 1 || c == 2;
      } else {
        var c := GridFaces(GridOf(inputs[2], ANCHORS32, width, height, 32), width, height, sigmoid, thresh, f);
        assert c == 0 || c == 1 || c == 2;
      }
    }
  }

  /** Every report is of a face on one of the grids with a passing score. */
  ghost predicate AllOnGrids(outputs: seq<Report>, width: nat, height: nat, thresh: real) {
    forall o :: o in outputs ==> exists f :: o == Reported(f) && OnSomeGrid(f.bbox, width, height) && f.score > thresh
  }

  lemma ReportsLie(kept: seq<Face>, candidates: seq<Face>, width: nat, height: nat, thresh: real)
    requires forall f :: f in kept ==> f in candidates
    requires forall f :: f in candidates ==> OnSomeGrid(f.bbox, width, height) && f.score > thresh
    ensures AllOnGrids(Reports(kept), width, height, thresh)
  {
    forall o | o in Reports(kept) ensures exists f :: o == Reported(f) && OnSomeGrid(f.bbox, width, height) && f.score > thresh {
      var k :| 0 <= k < |Reports(kept)| && Reports(kept)[k] == o;
      assert o == Reported(kept[k]) && kept[k] in kept;
    }
  }

  method FaceObjects(inputs: seq<seq<real>>, width: nat, height: nat, confidence: real, sigmoid: real -> real)
    returns (objects: array<Face>)
    requires Outputs(inputs, width, height) && IsSigmoid(sigmoid)
    ensures fresh(objects) && objects[..] == CandidatesOf(inputs, width, height, sigmoid, confidence)
  {
    var faces := GenerateProposals(inputs[0], ANCHORS8, width, height, 8, confidence, sigmoid, []);
    faces := GenerateProposals(inputs[1], ANCHORS16, width, height, 16, confidence, sigmoid, faces);
    faces := GenerateProposals(inputs[2], ANCHORS32, width, height, 32, confidence, sigmoid, faces);
    objects := new Face[|faces|](k requires 0 <= k < |faces| => faces[k]);
    assert objects[..] == faces;
  }

  function Reports(faces: seq<Face>): seq<Report> {
    seq(|faces|, k requires 0 <= k < |faces| => Reported(faces[k]))
  }

  /** The outputs are the reports of a detection. */
  ghost predicate ReportsDetection(outputs: seq<Report>, candidates: seq<Face>, threshold: real) {
    exists kept :: IsDetection(kept, candidates, threshold) && outputs == Reports(kept)
  }

  /** All faces that pass the confidence threshold, sorted, suppressed and rounded. */
  method PostprocessFaceDet(inputs: seq<seq<real>>, width: nat, height: nat, confidence: real, threshold: real, sigmoid: real -> real)
    returns (outputs: seq<Report>)
    requires Outputs(inputs, width, height) && IsSigmoid(sigmoid)
    ensures ReportsDetection(outputs, CandidatesOf(inputs, width, height, sigmoid, confidence), threshold)
    ensures AllOnGrids(outputs, width, height, confidence)
  {
    var objects := FaceObjects(inputs, width, height, confidence, sigmoid);
    ghost var candidates := objects[..];
    CandidatesProper(GridOf(inputs[0], ANCHORS8, width, height, 8), sigmoid, confidence);
    CandidatesProper(GridOf(inputs[1], ANCHORS16, width, height, 16), sigmoid, confidence);
    CandidatesProper(GridOf(inputs[2], ANCHORS32, width, height, 32), sigmoid, confidence);
    FaceSort.QsortDescentInplace(objects);
    var faces := objects[..];
    SameElements(faces, candidates);
    assert AllProper(faces) by {
      assert forall k :: 0 <= k < |faces| ==> faces[k] in faces;
    }
    var picked := NmsSortedBBoxes(faces, threshold);
    outputs := ReportPicked(faces, picked);
    SuppressionDetects(faces, candidates, picked, threshold);
    CandidatesLie(inputs, width, height, sigmoid, confidence);
    ReportsLie(Select(faces, picked), candidates, width, height, confidence);
  }

  method ReportPicked(faces: seq<Face>, picked: seq<nat>) returns (outputs: seq<Report>)
    requires forall k :: 0 <= k < |picked| ==> picked[k] < |faces|
    ensures outputs == Reports(Select(faces, picked))
  {
    outputs := [];
    for i := 0 to |picked|
      invariant |outputs| == i && forall k :: 0 <= k < i ==> outputs[k] == Reported(faces[picked[k]])
    {
      outputs := outputs + [Reported(faces[picked[i]])];
    }
  }
}
