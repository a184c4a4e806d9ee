/**
 YUYV pictures converted to NV12 and NV21. A YUYV row of `w` pixels has `2 * w` bytes: luma at the even
 offsets, and at the odd ones U (1 modulo 4) and V (3 modulo 4) in turn.
 */
module Yuyv {
  import opened Prelude
  import opened Raster

  /** The mean of two bytes, halves rounded up. */
  function Mean(a: byte, b: byte): byte {
    (a + b + 1) / 2
  }

  /** `m` is half of the sum, rounded up. */
  predicate IsMean(m: int, a: int, b: int) {
    a + b <= 2 * m <= a + b + 1
  }

  /** Two picture rows for every chroma row are no more than the picture has. */
  lemma HalfRows(w: nat, h: nat)
    ensures 4 * Area(w, h / 2) <= 2 * Area(w, h)
  {
    var half := h / 2;
    AreaAdd(w, half, half);
    AreaMonotone(w, half + half, h);
  }

  function Luma(src: seq<byte>, n: nat): seq<byte>
    requires 2 * n <= |src|
  {
    seq(n, k requires 0 <= k < n => src[2 * k])
  }

  /** The byte at offset `m` of the picture row at `p`, averaged with the one below it. */
  function Averaged(src: seq<byte>, p: nat, w: nat, m: nat): byte {
    if p + m + 2 * w < |src| then Mean(src[p + m], src[p + m + 2 * w]) else 0
  }

  /** Which chroma byte leads each pair: U (at 1) in NV12, V (at 3) in NV21. The other follows. */
  type Lead = x: nat | x == 1 || x == 3 witness 1

  /** The first pairs of a chroma row after `prefix`. */
  function RowOnto(prefix: seq<byte>, src: seq<byte>, p: nat, w: nat, lead: Lead, pairs: nat): (s: seq<byte>)
    ensures |s| == |prefix| + 2 * pairs
    decreases pairs
  {
    if pairs == 0 then prefix else
      RowOnto(prefix, src, p, w, lead, pairs - 1)
      + [Averaged(src, p, w, 4 * (pairs - 1) + lead), Averaged(src, p, w, 4 * (pairs - 1) + 4 - lead)]
  }

  /** The first chroma rows after `prefix`, one for every two picture rows. */
  function ChromaOnto(prefix: seq<byte>, src: seq<byte>, w: nat, pairs: nat, lead: Lead, rows: nat): (s: seq<byte>)
    requires w == 2 * pairs
    ensures |s| == |prefix| + Area(w, rows)
    decreases rows
  {
    if rows == 0 then assert Area(w, 0) == 0; prefix else
      AreaStep(w, rows - 1);
      RowOnto(ChromaOnto(prefix, src, w, pairs, lead, rows - 1), src, 4 * Area(w, rows - 1), w, lead, pairs)
  }

  lemma ChromaStep(prefix: seq<byte>, src: seq<byte>, w: nat, pairs: nat, lead: Lead, rows: nat, p: nat)
    requires w == 2 * pairs && p == 4 * Area(w, rows)
    ensures ChromaOnto(prefix, src, w, pairs, lead, rows + 1)
         == RowOnto(ChromaOnto(prefix, src, w, pairs, lead, rows), src, p, w, lead, pairs)
  {
  }

  /** The planar form of a picture: the luma of every pixel, then the chroma rows. */
  function Planar(src: seq<byte>, w: nat, h: nat, lead: Lead): (r: seq<byte>)
    requires w % 2 == 0 && 2 * Area(w, h) <= |src|
    ensures |r| == Area(w, h) + Area(w, h / 2)
  {
    assert 2 * (w / 2) == w;
    ChromaOnto(Luma(src, Area(w, h)), src, w, w / 2, lead, h / 2)
  }

  lemma {:induction false} RowAt(prefix: seq<byte>, src: seq<byte>, p: nat, w: nat, lead: Lead, pairs: nat, k: nat)
    requires k < pairs
    ensures var s := RowOnto(prefix, src, p, w, lead, pairs);
      s[|prefix| + 2 * k] == Averaged(src, p, w, 4 * k + lead) && s[|prefix| + 2 * k + 1] == Averaged(src, p, w, 4 * k + 4 - lead)
    decreases pairs
  {
    if k < pairs - 1 {
      RowAt(prefix, src, p, w, lead, pairs - 1, k);
    }
  }

  lemma {:induction false} RowKeeps(prefix: seq<byte>, src: seq<byte>, p: nat, w: nat, lead: Lead, pairs: nat)
    ensures RowOnto(prefix, src, p, w, lead, pairs)[..|prefix|] == prefix
    decreases pairs
  {
    if pairs > 0 {
      RowKeeps(prefix, src, p, w, lead, pairs - 1);
    }
  }

  lemma {:induction false} ChromaKeeps(prefix: seq<byte>, src: seq<byte>, w: nat, pairs: nat, lead: Lead, rows: nat)
    requires w == 2 * pairs
    ensures ChromaOnto(prefix, src, w, pairs, lead, rows)[..|prefix|] == prefix
    decreases rows
  {
    if rows > 0 {
      ChromaKeeps(prefix, src, w, pairs, lead, rows - 1);
      RowKeeps(ChromaOnto(prefix, src, w, pairs, lead, rows - 1), src, 4 * Area(w, rows - 1), w, lead, pairs);
    }
  }

  lemma ChromaGrows(prefix: seq<byte>, src: seq<byte>, w: nat, pairs: nat, lead: Lead, rows: nat, at: nat)
    requires w == 2 * pairs
    requires at < |prefix| + Area(w, rows)
    ensures at < |ChromaOnto(prefix, src, w, pairs, lead, rows + 1)|
    ensures ChromaOnto(prefix, src, w, pairs, lead, rows + 1)[at] == ChromaOnto(prefix, src, w, pairs, lead, rows)[at]
  {
    var s, before := ChromaOnto(prefix, src, w, pairs, lead, rows + 1), ChromaOnto(prefix, src, w, pairs, lead, rows);
    RowKeeps(before, src, 4 * Area(w, rows), w, lead, pairs);
    assert s[at] == s[..|before|][at];
  }

  /** Pair `k` of chroma row `r`: the average of rows `2 * r` and `2 * r + 1` of the picture. */
  lemma {:induction false} ChromaAt(prefix: seq<byte>, src: seq<byte>, w: nat, pairs: nat, lead: Lead, rows: nat, r: nat, k: nat, at: nat)
    requires w == 2 * pairs
    requires r < rows && k < pairs && at == |prefix| + Area(w, r) + 2 * k
    ensures at + 1 < |prefix| + Area(w, rows)
    ensures ChromaOnto(prefix, src, w, pairs, lead, rows)[at] == Averaged(src, 4 * Area(w, r), w, 4 * k + lead)
    ensures ChromaOnto(prefix, src, w, pairs, lead, rows)[at + 1] == Averaged(src, 4 * Area(w, r), w, 4 * k + 4 - lead)
    decreases rows
  {
    AreaStep(w, rows - 1);
    if r == rows - 1 {
      RowAt(ChromaOnto(prefix, src, w, pairs, lead, r), src, 4 * Area(w, r), w, lead, pairs, k);
    } else {
      ChromaAt(prefix, src, w, pairs, lead, rows - 1, r, k, at);
      ChromaGrows(prefix, src, w, pairs, lead, rows - 1, at);
      ChromaGrows(prefix, src, w, pairs, lead, rows - 1, at + 1);
    }
  }

  method LumaPlane(src: seq<byte>, dst: array<byte>, n: nat) returns (d: nat)
    requires 2 * n <= |src| && n <= dst.Length
    modifies dst
    ensures d == n && dst[..d] == Luma(src, n)
    ensures forall x :: d <= x < dst.Length ==> dst[x] == old(dst[x])
  {
    d := 0;
    var i := 0;
    while i < n * 2
      invariant i == 2 * d <= n * 2
      invariant dst[..d] == Luma(src, n)[..d]
      invariant forall x :: d <= x < dst.Length ==> dst[x] == old(dst[x])
    {
      dst[d] := src[i];
      d := d + 1;
      i := i + 2;
    }
  }

  /** The pair of chroma bytes for the four bytes at `j`. */
  method PutPair(src: seq<byte>, dst: array<byte>, p: nat, d: nat, w: nat, j: nat, lead: Lead)
    requires p + 4 * w <= |src| && j + 4 <= 2 * w && d + 2 <= dst.Length
    modifies dst
    ensures dst[..d + 2] == old(dst[..d]) + [Averaged(src, p, w, j + lead), Averaged(src, p, w, j + 4 - lead)]
    ensures forall x :: d + 2 <= x < dst.Length ==> dst[x] == old(dst[x])
  {
    dst[d] := Mean(src[p + lead + j], src[p + lead + j + w * 2]);
    dst[d + 1] := Mean(src[p + 4 - lead + j], src[p + 4 - lead + j + w * 2]);
  }

  /** One chroma row, a pair for every four bytes. */
  method ChromaLine(src: seq<byte>, dst: array<byte>, p: nat, from: nat, w: nat, lead: Lead, ghost pairs: nat) returns (d: nat)
    requires w == 2 * pairs && p + 4 * w <= |src| && from + w <= dst.Length
    modifies dst
    ensures d == from + w && dst[..d] == RowOnto(old(dst[..from]), src, p, w, lead, pairs)
    ensures forall x :: d <= x < dst.Length ==> dst[x] == old(dst[x])
  {
    d := from;
    ghost var k := 0;
    var j := 0;
    while j < w * 2
      invariant j == 4 * k
      invariant k <= pairs && j <= w * 2
      invariant d == from + 2 * k && d <= dst.Length
      invariant dst[..d] == RowOnto(old(dst[..from]), src, p, w, lead, k)
      invariant forall x :: d <= x < dst.Length ==> dst[x] == old(dst[x])
    {
      PairFits(j, k, w, pairs);
      PutPair(src, dst, p, d, w, j, lead);
      k := k + 1;
      d := d + 2;
      j := j + 4;
    }
    PairsDone(j, k, w, pairs);
  }

  lemma PairFits(j: nat, k: nat, w: nat, pairs: nat)
    requires j == 4 * k && w == 2 * pairs && j < w * 2
    ensures k < pairs && j + 4 <= 2 * w && 2 * k + 2 <= w
  {
  }

  lemma PairsDone(j: nat, k: nat, w: nat, pairs: nat)
    requires j == 4 * k && w == 2 * pairs && k <= pairs && j >= w * 2
    ensures k == pairs
  {
  }

  /** The chroma rows, two picture rows at a time. */
  method ChromaPlane(src: seq<byte>, dst: array<byte>, width: nat, height: nat, from: nat, lead: Lead, ghost pairs: nat)
    requires width == 2 * pairs
    requires 4 * Area(width, height / 2) <= |src| && from + Area(width, height / 2) <= dst.Length
    modifies dst
    ensures var n := from + Area(width, height / 2);
      && dst[..n] == ChromaOnto(old(dst[..from]), src, width, pairs, lead, height / 2)
      && forall x :: n <= x < dst.Length ==> dst[x] == old(dst[x])
  {
    var p, d, y := 0, from, 0;
    ghost var rows, r, area, size := height / 2, 0, 0, Area(width, height / 2);
    while y < height - 1
      invariant y == 2 * r
      invariant r <= rows
      invariant area == Area(width, r) && area <= size
      invariant p == 4 * area && d == from + area
      invariant dst[..d] == ChromaOnto(old(dst[..from]), src, width, pairs, lead, r)
      invariant forall x :: d <= x < dst.Length ==> dst[x] == old(dst[x])
    {
      AreaStep(width, r);
      AreaMonotone(width, r + 1, rows);
      ChromaStep(old(dst[..from]), src, width, pairs, lead, r, p);
      d := ChromaLine(src, dst, p, d, width, lead, pairs);
      area := area + width;
      p := p + width * 2 * 2;
      y := y + 2;
      r := r + 1;
    }
    assert r == rows;
  }

  method Planes(src: seq<byte>, dst: array<byte>, width: nat, height: nat, lead: Lead)
    requires width % 2 == 0
    requires 2 * Area(width, height) <= |src| && Area(width, height) + Area(width, height / 2) <= dst.Length
    modifies dst
    ensures var n := Area(width, height) + Area(width, height / 2);
      dst[..n] == Planar(src, width, height, lead)
      && forall x :: n <= x < dst.Length ==> dst[x] == old(dst[x])
  {
    HalfRows(width, height);
    var n := width * height;
    var d := LumaPlane(src, dst, n);
    ChromaPlane(src, dst, width, height, d, lead, width / 2);
  }
}
