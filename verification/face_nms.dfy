/**
 Greedy non-maximum suppression, and what makes its result the only one possible.
 */
module FaceNms {
  import opened Face

  ghost predicate AllProper(faces: seq<Face>) {
    forall i :: 0 <= i < |faces| ==> Proper(faces[i].bbox)
  }

  /** Box `i` and box `j` overlap by more than the threshold. */
  predicate Exceeds(faces: seq<Face>, threshold: real, i: nat, j: nat) {
    && i < |faces| && j < |faces| && Proper(faces[i].bbox) && Proper(faces[j].bbox)
    && Overlap(faces[i].bbox, faces[j].bbox) > threshold
  }

  function Exceeding(faces: seq<Face>, threshold: real): (nat, nat) -> bool {
    (i: nat, j: nat) => Exceeds(faces, threshold, i, j)
  }

  ghost predicate Increasing(picked: seq<nat>) {
    forall k, l :: 0 <= k < l < |picked| ==> picked[k] < picked[l]
  }

  /** Box `i` overlaps too much with a picked box before it. */
  ghost predicate Suppressed(picked: seq<nat>, over: (nat, nat) -> bool, i: nat) {
    exists k :: 0 <= k < |picked| && picked[k] < i && over(i, picked[k])
  }

  /**
   The outcome of suppression among the first `n` boxes: the picked ones are in order, no two of them
   overlap too much, and every other one is suppressed by a picked one before it.
   */
  ghost predicate IsNms(picked: seq<nat>, over: (nat, nat) -> bool, n: nat) {
    && (forall k :: 0 <= k < |picked| ==> picked[k] < n)
    && Increasing(picked)
    && (forall k, l :: 0 <= k < l < |picked| ==> !over(picked[l], picked[k]))
    && (forall i: nat :: i < n && i !in picked ==> Suppressed(picked, over, i))
  }

  /** Whether box `i` goes with all boxes picked so far. */
  method Keep(faces: seq<Face>, picked: seq<nat>, i: nat, threshold: real) returns (keep: bool)
    requires AllProper(faces) && i < |faces| && forall k :: 0 <= k < |picked| ==> picked[k] < |faces|
    ensures keep <==> forall k :: 0 <= k < |picked| ==> !Exceeds(faces, threshold, i, picked[k])
  {
    keep := true;
    for j := 0 to |picked|
      invariant keep <==> forall k :: 0 <= k < j ==> !Exceeds(faces, threshold, i, picked[k])
    {
      var a, b := faces[i].bbox, faces[picked[j]].bbox;
      var inter := IntersectionArea(a, b);
      IntersectionBounds(a, b);
      AreaPositive(a);
      AreaPositive(b);
      var union := a.area + b.area - inter;
      if inter / union > threshold {
        keep := false;
      }
    }
  }

  method NmsSortedBBoxes(faces: seq<Face>, threshold: real) returns (picked: seq<nat>)
    requires AllProper(faces)
    ensures IsNms(picked, Exceeding(faces, threshold), |faces|)
  {
    picked := [];
    ghost var over := Exceeding(faces, threshold);
    for i := 0 to |faces|
      invariant IsNms(picked, over, i)
    {
      var keep := Keep(faces, picked, i, threshold);
      NmsExtend(picked, over, i);
      if keep {
        picked := picked + [i];
      }
    }
  }

  /** Deciding box `i` against the boxes picked so far. */
  lemma NmsExtend(picked: seq<nat>, over: (nat, nat) -> bool, i: nat)
    requires IsNms(picked, over, i)
    ensures if forall k :: 0 <= k < |picked| ==> !over(i, picked[k])
      then IsNms(picked + [i], over, i + 1) else IsNms(picked, over, i + 1)
  {
    var more := picked + [i];
    assert more[|picked|] == i;
    forall m: nat | m < i && m !in more ensures Suppressed(more, over, m) {
      assert m !in picked && Suppressed(picked, over, m);
      var k :| 0 <= k < |picked| && picked[k] < m && over(m, picked[k]);
      assert more[k] == picked[k];
    }
  }

  /** There is only one such outcome. */
  lemma NmsUnique(p: seq<nat>, q: seq<nat>, over: (nat, nat) -> bool, n: nat)
    requires IsNms(p, over, n) && IsNms(q, over, n)
    ensures p == q
  {
    SameMembers(p, q, over, n, n);
    if |p| > 0 { SameAt(p, q, |p| - 1); }
    if |q| > 0 { SameAt(q, p, |q| - 1); }
    forall k | 0 <= k < |p| ensures p[k] == q[k] {
      SameAt(p, q, k);
    }
  }

  lemma {:induction false} SameMembers(p: seq<nat>, q: seq<nat>, over: (nat, nat) -> bool, n: nat, m: nat)
    requires IsNms(p, over, n) && IsNms(q, over, n) && m <= n
    ensures forall i: nat :: i < m ==> (i in p <==> i in q)
  {
    if m > 0 {
      SameMembers(p, q, over, n, m - 1);
      if m - 1 !in p {
        NotPicked(p, q, over, n, m - 1);
      }
      if m - 1 !in q {
        NotPicked(q, p, over, n, m - 1);
      }
    }
  }

  /** What one outcome suppresses, another that agrees with it on all earlier boxes does not pick. */
  lemma NotPicked(p: seq<nat>, q: seq<nat>, over: (nat, nat) -> bool, n: nat, i: nat)
    requires IsNms(p, over, n) && IsNms(q, over, n) && i < n && i !in p
    requires forall m: nat :: m < i ==> (m in p <==> m in q)
    ensures i !in q
  {
    assert Suppressed(p, over, i);
    var k :| 0 <= k < |p| && p[k] < i && over(i, p[k]);
    assert p[k] in q;
    var x :| 0 <= x < |q| && q[x] == p[k];
    forall y | 0 <= y < |q| ensures q[y] != i {
      if x < y {
        assert !over(q[y], q[x]);
      }
    }
  }

  /** Increasing sequences with the same members are equal, position by position. */
  lemma {:induction false} SameAt(p: seq<nat>, q: seq<nat>, k: nat)
    requires Increasing(p) && Increasing(q) && k < |p|
    requires forall i: nat :: i in p <==> i in q
    ensures k < |q| && p[k] == q[k]
    decreases k
  {
    forall i | 0 <= i < k ensures i < |q| && p[i] == q[i] {
      SameAt(p, q, i);
    }
    assert p[k] in q;
    var x :| 0 <= x < |q| && q[x] == p[k];
    assert x >= k;
    assert q[k] in p;
    var y :| 0 <= y < |p| && p[y] == q[k];
    assert y >= k;
  }

  /** On boxes sorted by score, whatever is left out is outscored by a picked box that overlaps it. */
  lemma SuppressedByBetter(faces: seq<Face>, picked: seq<nat>, threshold: real, i: nat)
    requires IsNms(picked, Exceeding(faces, threshold), |faces|)
    requires forall k, l :: 0 <= k < l < |faces| ==> faces[k].score >= faces[l].score
    requires i < |faces| && i !in picked
    ensures exists k :: k in picked && k < |faces| && faces[k].score >= faces[i].score && Exceeds(faces, threshold, i, k)
  {
    var over := Exceeding(faces, threshold);
    assert Suppressed(picked, over, i);
    var k :| 0 <= k < |picked| && picked[k] < i && over(i, picked[k]);
    assert picked[k] in picked && Exceeds(faces, threshold, i, picked[k]);
  }
}
