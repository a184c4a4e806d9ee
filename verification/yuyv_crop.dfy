/**
 The conversions to NV21 and NV12, the latter with the crop of the picture's bottom rows for the detector.
 The crop measures in the capture format's fixed size, not in the size it is given.
 */
module YuyvCrop {
  import opened Prelude
  import opened Raster
  import opened Yuyv

  const WIDTH := 640
  const HEIGHT := 480

  method Yuyv2Nv21(src: seq<byte>, dst: array<byte>, width: nat, height: nat)
    requires width % 2 == 0
    requires 2 * Area(width, height) <= |src| && Area(width, height) + Area(width, height / 2) <= dst.Length
    modifies dst
    ensures var n := Area(width, height) + Area(width, height / 2);
      dst[..n] == Planar(src, width, height, 3)
      && forall x :: n <= x < dst.Length ==> dst[x] == old(dst[x])
  {
    Planes(src, dst, width, height, 3);
  }

  /** NV21 is NV12 with the bytes of each chroma pair exchanged. */
  lemma Nv21SwapsPairs(src: seq<byte>, w: nat, h: nat, r: nat, k: nat, at: nat)
    requires w % 2 == 0 && 2 * Area(w, h) <= |src| && r < h / 2 && k < w / 2
    requires at == Area(w, h) + Area(w, r) + 2 * k
    ensures at + 1 < Area(w, h) + Area(w, h / 2)
    ensures Planar(src, w, h, 3)[at] == Planar(src, w, h, 1)[at + 1]
    ensures Planar(src, w, h, 3)[at + 1] == Planar(src, w, h, 1)[at]
  {
    assert 2 * (w / 2) == w;
    ChromaAt(Luma(src, Area(w, h)), src, w, w / 2, 3, h / 2, r, k, at);
    ChromaAt(Luma(src, Area(w, h)), src, w, w / 2, 1, h / 2, r, k, at);
  }

  function PlanarSize(w: nat, h: nat): nat {
    Area(w, h) + Area(w, h / 2)
  }

  /** What a crop for captures of `cw` by `ch` pixels reads lies inside a planar form of `n` bytes. */
  predicate CropFits(n: nat, cw: nat, ch: nat, h: nat, mh: nat) {
    mh <= h && Area(cw, h) <= n && Area(cw, ch) + Area(cw, (h - mh) / 2) + Area(cw, mh / 2) <= n
  }

  /** Two runs of bytes, one after the other. */
  function Runs(s: seq<byte>, luma: nat, rows: nat, chroma: nat, pairs: nat): seq<byte>
    requires luma + rows <= |s| && chroma + pairs <= |s|
  {
    s[luma..luma + rows] + s[chroma..chroma + pairs]
  }

  /** The rows copied from a planar form of height `h`: `mh` of luma, and chroma for as many. */
  function Crop(nv12: seq<byte>, cw: nat, ch: nat, h: nat, mh: nat): seq<byte>
    requires CropFits(|nv12|, cw, ch, h, mh)
  {
    AreaAdd(cw, h - mh, mh);
    assert (h - mh) + mh == h;
    Runs(nv12, Area(cw, h - mh), Area(cw, mh), Area(cw, ch) + Area(cw, (h - mh) / 2), Area(cw, mh / 2))
  }

  method Memcpy(dst: array<byte>, d: nat, src: array<byte>, s: nat, n: nat)
    requires dst != src && d + n <= dst.Length && s + n <= src.Length
    modifies dst
    ensures dst[..d + n] == old(dst[..d]) + src[s..s + n]
  {
    var i := 0;
    while i < n
      invariant i <= n
      invariant dst[..d + i] == old(dst[..d]) + src[s..s + i]
    {
      dst[d + i] := src[s + i];
      assert src[s..s + i + 1] == src[s..s + i] + [src[s + i]];
      i := i + 1;
    }
  }

  /** Where the rows to copy start, and how many bytes they are. */
  method Extents(cw: nat, ch: nat, height: nat, modheight: nat) returns (luma: nat, rows: nat, chroma: nat, pairs: nat)
    requires modheight <= height
    ensures luma == Area(cw, height - modheight) && rows == Area(cw, modheight)
    ensures chroma == Area(cw, ch) + Area(cw, (height - modheight) / 2) && pairs == Area(cw, modheight / 2)
  {
    var offset := height - modheight;
    luma, rows := cw * offset, modheight * cw;
    chroma, pairs := cw * ch + (offset / 2) * cw, (modheight / 2) * cw;
  }

  method CopyRuns(nv12: array<byte>, modbuf: array<byte>, ghost n: nat, luma: nat, rows: nat, chroma: nat, pairs: nat)
    requires nv12 != modbuf && n <= nv12.Length && rows + pairs <= modbuf.Length
    requires luma + rows <= n && chroma + pairs <= n
    modifies modbuf
    ensures modbuf[..rows + pairs] == Runs(nv12[..n], luma, rows, chroma, pairs)
  {
    TakeSlice(nv12[..], n, luma, luma + rows);
    TakeSlice(nv12[..], n, chroma, chroma + pairs);
    Memcpy(modbuf, 0, nv12, luma, rows);
    assert modbuf[..rows] == nv12[luma..luma + rows];
    Memcpy(modbuf, rows, nv12, chroma, pairs);
  }

  lemma TakeSlice(s: seq<byte>, n: nat, lo: nat, hi: nat)
    requires lo <= hi <= n <= |s|
    ensures s[..n][lo..hi] == s[lo..hi]
  {
  }

  /** The bottom rows of the planar form in `nv12` copied to `modbuf`. */
  method CopyCrop(nv12: array<byte>, modbuf: array<byte>, ghost n: nat, cw: nat, ch: nat, height: nat, modheight: nat)
    requires nv12 != modbuf && n <= nv12.Length && CropFits(n, cw, ch, height, modheight)
    requires PlanarSize(cw, modheight) <= modbuf.Length
    modifies modbuf
    ensures modbuf[..PlanarSize(cw, modheight)] == Crop(nv12[..n], cw, ch, height, modheight)
  {
    AreaAdd(cw, height - modheight, modheight);
    assert (height - modheight) + modheight == height;
    var luma, rows, chroma, pairs := Extents(cw, ch, height, modheight);
    CopyRuns(nv12, modbuf, n, luma, rows, chroma, pairs);
  }

  method Yuyv2Nv12(src: seq<byte>, dst: array<byte>, modbuf: array<byte>, width: nat, height: nat, modwidth: nat, modheight: nat)
    requires dst != modbuf && width % 2 == 0
    requires 2 * Area(width, height) <= |src| && PlanarSize(width, height) <= dst.Length
    requires CropFits(PlanarSize(width, height), WIDTH, HEIGHT, height, modheight)
    requires PlanarSize(WIDTH, modheight) <= modbuf.Length
    modifies dst, modbuf
    ensures dst[..PlanarSize(width, height)] == Planar(src, width, height, 1)
    ensures forall x :: PlanarSize(width, height) <= x < dst.Length ==> dst[x] == old(dst[x])
    ensures modbuf[..PlanarSize(WIDTH, modheight)] == Crop(Planar(src, width, height, 1), WIDTH, HEIGHT, height, modheight)
  {
    Planes(src, dst, width, height, 1);
    CopyCrop(dst, modbuf, PlanarSize(width, height), WIDTH, HEIGHT, height, modheight);
  }

  /** The rows of a picture that the crop is meant to show. */
  function Bottom(src: seq<byte>, w: nat, h: nat, mh: nat): (r: seq<byte>)
    requires mh <= h && |src| == 2 * Area(w, h)
    ensures |r| == 2 * Area(w, mh)
  {
    AreaAdd(w, h - mh, mh);
    src[2 * Area(w, h - mh)..]
  }

  /** Cropping the converted picture gives what converting the picture's bottom rows gives. */
  ghost predicate Commutes(src: seq<byte>, w: nat, h: nat, cw: nat, ch: nat, mh: nat)
    requires w % 2 == 0 && |src| == 2 * Area(w, h) && CropFits(PlanarSize(w, h), cw, ch, h, mh)
  {
    Crop(Planar(src, w, h, 1), cw, ch, h, mh) == Planar(Bottom(src, w, h, mh), w, mh, 1)
  }

  lemma AveragedShift(src: seq<byte>, skip: nat, p: nat, w: nat, m: nat)
    requires skip <= |src|
    ensures Averaged(src[skip..], p, w, m) == Averaged(src, skip + p, w, m)
  {
  }

  lemma {:induction false} RowShift(prefix: seq<byte>, src: seq<byte>, skip: nat, p: nat, w: nat, lead: Lead, pairs: nat)
    requires skip <= |src|
    ensures RowOnto(prefix, src[skip..], p, w, lead, pairs) == RowOnto(prefix, src, skip + p, w, lead, pairs)
    decreases pairs
  {
    if pairs > 0 {
      RowShift(prefix, src, skip, p, w, lead, pairs - 1);
      AveragedShift(src, skip, p, w, 4 * (pairs - 1) + lead);
      AveragedShift(src, skip, p, w, 4 * (pairs - 1) + 4 - lead);
    }
  }

  /** One more chroma row on both sides of the split below. */
  lemma SplitStep(prefix: seq<byte>, mid: seq<byte>, src: seq<byte>, rest: seq<byte>, w: nat, pairs: nat, lead: Lead,
                  a: nat, b: nat, n: nat)
    requires w == 2 * pairs && 4 * Area(w, a) <= |src| && rest == src[4 * Area(w, a)..] && n == a + b
    requires ChromaOnto(prefix, src, w, pairs, lead, n) == ChromaOnto(mid, rest, w, pairs, lead, b)
    ensures ChromaOnto(prefix, src, w, pairs, lead, n + 1) == ChromaOnto(mid, rest, w, pairs, lead, b + 1)
  {
    AreaAdd(w, a, b);
    RowShift(ChromaOnto(prefix, src, w, pairs, lead, n), src, 4 * Area(w, a), 4 * Area(w, b), w, lead, pairs);
    ChromaStep(prefix, src, w, pairs, lead, n, 4 * Area(w, a) + 4 * Area(w, b));
    ChromaStep(mid, rest, w, pairs, lead, b, 4 * Area(w, b));
  }

  /** Chroma rows after the first `a` are those of the picture without its first `2 * a` rows. */
  lemma {:induction false} ChromaSplit(prefix: seq<byte>, mid: seq<byte>, src: seq<byte>, rest: seq<byte>, w: nat, pairs: nat,
                                       lead: Lead, a: nat, b: nat, n: nat)
    requires w == 2 * pairs && 4 * Area(w, a) <= |src| && rest == src[4 * Area(w, a)..] && n == a + b
    requires mid == ChromaOnto(prefix, src, w, pairs, lead, a)
    ensures ChromaOnto(prefix, src, w, pairs, lead, n) == ChromaOnto(mid, rest, w, pairs, lead, b)
    decreases b
  {
    if b == 0 {
      assert n == a;
    } else {
      assert n - 1 == a + (b - 1);
      ChromaSplit(prefix, mid, src, rest, w, pairs, lead, a, b - 1, n - 1);
      SplitStep(prefix, mid, src, rest, w, pairs, lead, a, b - 1, n - 1);
    }
  }

  lemma {:induction false} RowAfter(x: seq<byte>, y: seq<byte>, src: seq<byte>, p: nat, w: nat, lead: Lead, pairs: nat)
    ensures RowOnto(x + y, src, p, w, lead, pairs) == x + RowOnto(y, src, p, w, lead, pairs)
    decreases pairs
  {
    if pairs > 0 {
      RowAfter(x, y, src, p, w, lead, pairs - 1);
    }
  }

  lemma {:induction false} ChromaAfter(x: seq<byte>, y: seq<byte>, src: seq<byte>, w: nat, pairs: nat, lead: Lead, rows: nat)
    requires w == 2 * pairs
    ensures ChromaOnto(x + y, src, w, pairs, lead, rows) == x + ChromaOnto(y, src, w, pairs, lead, rows)
    decreases rows
  {
    if rows > 0 {
      ChromaAfter(x, y, src, w, pairs, lead, rows - 1);
      RowAfter(x, ChromaOnto(y, src, w, pairs, lead, rows - 1), src, 4 * Area(w, rows - 1), w, lead, pairs);
    }
  }

  /** The chroma plane alone. */
  function ChromaOf(src: seq<byte>, w: nat, pairs: nat, rows: nat): (s: seq<byte>)
    requires w == 2 * pairs
    ensures |s| == Area(w, rows)
  {
    ChromaOnto([], src, w, pairs, 1, rows)
  }

  lemma ChromaParts(src: seq<byte>, w: nat, pairs: nat, a: nat, b: nat)
    requires w == 2 * pairs && 4 * Area(w, a) <= |src|
    ensures ChromaOf(src, w, pairs, a + b) == ChromaOf(src, w, pairs, a) + ChromaOf(src[4 * Area(w, a)..], w, pairs, b)
  {
    var first := ChromaOf(src, w, pairs, a);
    ChromaSplit([], first, src, src[4 * Area(w, a)..], w, pairs, 1, a, b, a + b);
    ChromaAfter(first, [], src[4 * Area(w, a)..], w, pairs, 1, b);
    assert first + [] == first;
  }

  lemma LumaParts(src: seq<byte>, a: nat, b: nat)
    requires 2 * (a + b) <= |src|
    ensures Luma(src, a + b) == Luma(src, a) + Luma(src[2 * a..], b)
  {
  }

  lemma PlanarParts(src: seq<byte>, w: nat, h: nat)
    requires w % 2 == 0 && 2 * Area(w, h) <= |src|
    ensures Planar(src, w, h, 1) == Luma(src, Area(w, h)) + ChromaOf(src, w, w / 2, h / 2)
  {
    var luma := Luma(src, Area(w, h));
    ChromaAfter(luma, [], src, w, w / 2, 1, h / 2);
    assert luma + [] == luma;
  }

  lemma RunsOfParts(a: seq<byte>, b: seq<byte>, c: seq<byte>, d: seq<byte>)
    ensures Runs((a + b) + (c + d), |a|, |b|, |a| + |b| + |c|, |d|) == b + d
  {
  }

  /** Cropping an even number of rows of a picture of the capture's own size commutes with conversion. */
  lemma CropCommutes(src: seq<byte>, w: nat, h: nat, mh: nat)
    requires w % 2 == 0 && |src| == 2 * Area(w, h) && mh <= h && h % 2 == 0 && mh % 2 == 0
    ensures CropFits(PlanarSize(w, h), w, h, h, mh) && Commutes(src, w, h, w, h, mh)
  {
    var pairs, off, skip, b := w / 2, h - mh, (h - mh) / 2, mh / 2;
    assert 2 * pairs == w && skip + b == h / 2 && skip + skip == off && off + mh == h;
    AreaAdd(w, skip, b);
    AreaAdd(w, skip, skip);
    AreaAdd(w, off, mh);
    CropParts(src, Bottom(src, w, h, mh), w, pairs, h, mh, off, skip, b);
  }

  lemma CropParts(src: seq<byte>, bottom: seq<byte>, w: nat, pairs: nat, h: nat, mh: nat, off: nat, skip: nat, b: nat)
    requires w % 2 == 0 && pairs == w / 2 && w == 2 * pairs
    requires off == h - mh && skip == (h - mh) / 2 && b == mh / 2 && h / 2 == skip + b && mh <= h
    requires Area(w, h) == Area(w, off) + Area(w, mh) && Area(w, h / 2) == Area(w, skip) + Area(w, b)
    requires Area(w, off) == 2 * Area(w, skip)
    requires |src| == 2 * Area(w, h) && bottom == src[2 * Area(w, off)..]
    ensures CropFits(PlanarSize(w, h), w, h, h, mh)
    ensures Crop(Planar(src, w, h, 1), w, h, h, mh) == Planar(bottom, w, mh, 1)
  {
    LumaParts(src, Area(w, off), Area(w, mh));
    ChromaParts(src, w, pairs, skip, b);
    PlanarParts(src, w, h);
    PlanarParts(bottom, w, mh);
    assert Planar(src, w, h, 1) == (Luma(src, Area(w, off)) + Luma(bottom, Area(w, mh))) + (ChromaOf(src, w, pairs, skip) + ChromaOf(bottom, w, pairs, b));
    RunsOfParts(Luma(src, Area(w, off)), Luma(bottom, Area(w, mh)), ChromaOf(src, w, pairs, skip), ChromaOf(bottom, w, pairs, b));
  }

  lemma LumaAt(src: seq<byte>, w: nat, h: nat, lead: Lead, n: nat)
    requires w % 2 == 0 && 2 * Area(w, h) <= |src| && n < Area(w, h)
    ensures Planar(src, w, h, lead)[n] == src[2 * n]
  {
    assert 2 * (w / 2) == w;
    var luma := Luma(src, Area(w, h));
    ChromaKeeps(luma, src, w, w / 2, lead, h / 2);
    assert Planar(src, w, h, lead)[n] == Planar(src, w, h, lead)[..|luma|][n];
  }

  /** Byte `m` of chroma row `r`'s upper picture row lies in the picture, and so does the one below it. */
  lemma PairInside(w: nat, h: nat, r: nat, m: nat)
    requires r < h / 2 && m < 2 * w
    ensures 2 * Area(w, 2 * r) == 4 * Area(w, r)
    ensures 4 * Area(w, r) + m + 2 * w < 2 * Area(w, h)
  {
    AreaAdd(w, r, r);
    AreaStep(w, 2 * r);
    AreaStep(w, 2 * r + 1);
    AreaMonotone(w, 2 * r + 2, h);
  }

  /** Each chroma byte is the rounded mean of two picture bytes of its own kind, one below the other. */
  lemma ChromaIsMean(src: seq<byte>, w: nat, h: nat, r: nat, k: nat)
    requires w % 2 == 0 && 2 * Area(w, h) <= |src| && r < h / 2 && 2 * k < w
    ensures var at, p := Area(w, h) + Area(w, r) + 2 * k, 4 * Area(w, r) + 4 * k;
      && at + 1 < PlanarSize(w, h) && p + 3 + 2 * w < |src|
      && IsMean(Planar(src, w, h, 1)[at], src[p + 1], src[p + 1 + 2 * w])
      && IsMean(Planar(src, w, h, 1)[at + 1], src[p + 3], src[p + 3 + 2 * w])
  {
    PlanarAt(src, w, h, r, k);
    PairInside(w, h, r, 4 * k + 3);
    AveragedIsMean(src, 4 * Area(w, r), w, 4 * k + 1);
    AveragedIsMean(src, 4 * Area(w, r), w, 4 * k + 3);
  }

  lemma AveragedIsMean(src: seq<byte>, p: nat, w: nat, m: nat)
    requires p + m + 2 * w < |src|
    ensures IsMean(Averaged(src, p, w, m), src[p + m], src[p + m + 2 * w])
  {
  }

  /** Pair `k` of chroma row `r`. */
  lemma PlanarAt(src: seq<byte>, w: nat, h: nat, r: nat, k: nat)
    requires w % 2 == 0 && 2 * Area(w, h) <= |src| && r < h / 2 && 2 * k < w
    ensures Area(w, h) + Area(w, r) + 2 * k + 1 < PlanarSize(w, h)
    ensures Planar(src, w, h, 1)[Area(w, h) + Area(w, r) + 2 * k] == Averaged(src, 4 * Area(w, r), w, 4 * k + 1)
    ensures Planar(src, w, h, 1)[Area(w, h) + Area(w, r) + 2 * k + 1] == Averaged(src, 4 * Area(w, r), w, 4 * k + 3)
  {
    assert 2 * (w / 2) == w;
    ChromaAt(Luma(src, Area(w, h)), src, w, w / 2, 1, h / 2, r, k, Area(w, h) + Area(w, r) + 2 * k);
  }
}
