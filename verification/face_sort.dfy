/**
 The in-place Hoare quicksort of the detector's faces, by descending score.
 */
module FaceSort {
  import opened Face

  /** The faces at positions `lo` to `hi` are in descending order of score. */
  ghost predicate Descending(s: seq<Face>, lo: int, hi: int)
    requires 0 <= lo && hi < |s|
  {
    forall i, j :: lo <= i < j <= hi ==> s[i].score >= s[j].score
  }

  ghost predicate All(s: seq<Face>, lo: int, hi: int, ok: Face -> bool)
    requires 0 <= lo && hi < |s|
  {
    forall k :: lo <= k <= hi ==> ok(s[k])
  }

  /** `t` is a permutation of `s` that moves nothing outside positions `lo` to `hi`. */
  ghost predicate Permuted(s: seq<Face>, t: seq<Face>, lo: int, hi: int) {
    && |s| == |t| && multiset(s) == multiset(t)
    && forall k :: 0 <= k < |s| && !(lo <= k <= hi) ==> t[k] == s[k]
  }

  /** A range cut at `j` and `i`: nothing below the pivot on the left, nothing above it on the right. */
  ghost predicate Cut(s: seq<Face>, left: int, right: int, j: int, i: int, p: real) {
    && 0 <= left <= right < |s|
    && left - 1 <= j < i <= right + 1
    && (forall k :: left <= k <= j ==> s[k].score >= p)
    && (forall k :: j < k < i ==> s[k].score == p)
    && (forall k :: i <= k <= right ==> s[k].score <= p)
  }

  /** Scans up to the first face that does not beat the pivot; `stop` is known not to. */
  method ScanUp(a: array<Face>, from: int, ghost stop: int, pivot: real) returns (i: int)
    requires 0 <= from <= stop < a.Length && a[stop].score <= pivot
    ensures from <= i <= stop && a[i].score <= pivot
    ensures forall k :: from <= k < i ==> a[k].score > pivot
  {
    i := from;
    while a[i].score > pivot
      invariant from <= i <= stop
      invariant forall k :: from <= k < i ==> a[k].score > pivot
      decreases stop - i
    {
      i := i + 1;
    }
  }

  /**
   Scans down to the first face that the pivot does not beat; `stop` is known to be one. The scan ends
   no further down than just below the faces from `lo` to `i` that all beat the pivot.
   */
  method ScanDown(a: array<Face>, from: int, ghost stop: int, ghost lo: int, ghost i: int, pivot: real) returns (j: int)
    requires 0 <= stop <= from < a.Length && a[stop].score >= pivot
    requires 0 <= lo <= i <= from + 1 && lo <= stop + 1
    requires forall k :: lo <= k < i ==> a[k].score > pivot
    ensures stop <= j <= from && i <= j + 1 && a[j].score >= pivot
    ensures forall k :: j < k <= from ==> a[k].score < pivot
  {
    j := from;
    while a[j].score < pivot
      invariant stop <= j <= from && i <= j + 1
      invariant forall k :: j < k <= from ==> a[k].score < pivot
      decreases j - stop
    {
      j := j - 1;
    }
  }

  method Swap(a: array<Face>, i: int, j: int, ghost left: int, ghost right: int, ghost ok: Face -> bool)
    requires 0 <= left <= i <= j <= right < a.Length
    modifies a
    ensures a[i] == old(a[j]) && a[j] == old(a[i])
    ensures forall k :: 0 <= k < a.Length && k != i && k != j ==> a[k] == old(a[k])
    ensures Permuted(old(a[..]), a[..], left, right)
    ensures All(old(a[..]), left, right, ok) ==> All(a[..], left, right, ok)
  {
    ghost var s := a[..];
    a[i], a[j] := a[j], a[i];
    assert a[..] == s[i := s[j]][j := s[i]];
  }

  /** One partition: the two parts are disjoint, shorter than the range, with only the pivot's score between. */
  method Partition(a: array<Face>, left: int, right: int, ghost ok: Face -> bool) returns (i: int, j: int, ghost p: real)
    requires 0 <= left <= right < a.Length && All(a[..], left, right, ok)
    modifies a
    ensures Permuted(old(a[..]), a[..], left, right) && All(a[..], left, right, ok)
    ensures Cut(a[..], left, right, j, i, p) && j < right && left < i
  {
    ghost var mid := (left + right) / 2;
    var pivot := a[(left + right) / 2].score;
    p := pivot;
    i, j := left, right;
    while i <= j
      invariant left <= i <= right + 1 && left - 1 <= j <= right && i <= j + 2
      invariant i == left <==> j == right
      invariant i == left ==> a[mid].score == pivot
      invariant forall k :: left <= k < i ==> a[k].score >= pivot
      invariant forall k :: j < k <= right ==> a[k].score <= pivot
      invariant Permuted(old(a[..]), a[..], left, right)
      invariant All(a[..], left, right, ok)
      decreases j - i
    {
      ghost var first := i == left;
      var i' := ScanUp(a, i, if first then mid else j + 1, pivot);
      var j' := ScanDown(a, j, if first then mid else i - 1, i, i', pivot);
      i, j := i', j';
      if i <= j {
        Swap(a, i, j, left, right, ok);
        i, j := i + 1, j - 1;
      }
    }
  }

  /** The range sorted in place; the two recursive calls work on disjoint parts. */
  method QsortDescentRange(a: array<Face>, left: int, right: int, ghost ok: Face -> bool)
    requires 0 <= left <= right < a.Length && All(a[..], left, right, ok)
    modifies a
    ensures Permuted(old(a[..]), a[..], left, right) && All(a[..], left, right, ok)
    ensures Descending(a[..], left, right)
    decreases right - left
  {
    var i, j, p := Partition(a, left, right, ok);
    ghost var s := a[..];
    ghost var above := (f: Face) => ok(f) && f.score >= p;
    ghost var below := (f: Face) => ok(f) && f.score <= p;
    if left < j {
      QsortDescentRange(a, left, j, above);
    }
    ghost var t := a[..];
    if i < right {
      QsortDescentRange(a, i, right, below);
    }
    PartsSorted(s, t, a[..], left, right, j, i, p, ok);
  }

  /** Sorting the parts of a cut range sorts the range. */
  lemma PartsSorted(s: seq<Face>, t: seq<Face>, u: seq<Face>, left: int, right: int, j: int, i: int, p: real, ok: Face -> bool)
    requires Cut(s, left, right, j, i, p) && All(s, left, right, ok)
    requires Permuted(s, t, left, j) && All(t, left, j, f => ok(f) && f.score >= p) && Descending(t, left, j)
    requires Permuted(t, u, i, right) && All(u, i, right, f => ok(f) && f.score <= p) && Descending(u, i, right)
    ensures Permuted(s, u, left, right) && All(u, left, right, ok) && Descending(u, left, right)
  {
    forall k | left <= k <= right ensures ok(u[k]) && (k < i ==> u[k].score >= p) && (k > j ==> u[k].score <= p) {
      if k <= j { assert u[k] == t[k]; } else if k < i { assert u[k] == t[k] == s[k]; }
    }
    forall x, y | left <= x < y <= right ensures u[x].score >= u[y].score {
      if y <= j { assert u[x] == t[x] && u[y] == t[y]; }
    }
  }

  /** All faces sorted in place by descending score. */
  method QsortDescentInplace(a: array<Face>)
    modifies a
    ensures multiset(a[..]) == multiset(old(a[..]))
    ensures forall i, j :: 0 <= i < j < a.Length ==> a[i].score >= a[j].score
  {
    if a.Length == 0 {
      return;
    }
    QsortDescentRange(a, 0, a.Length - 1, _ => true);
  }
}
