/**
 Quarter turns of planar pictures: a luma plane of bytes, and a chroma plane of interleaved U and V bytes
 with half the width and half the height.
 */
module Rotate {
  import opened Prelude
  import opened Raster

  lemma Inside(w: nat, h: nat, y: nat, x: nat)
    requires y < h && x < w
    ensures Area(w, y) + x < Area(w, y + 1) <= Area(w, h)
  {
    AreaStep(w, y);
    AreaMonotone(w, y + 1, h);
  }

  /** The pixel in row `y` and column `x` of a picture of width `w`. */
  function Pixel<T>(s: seq<T>, w: nat, h: nat, y: nat, x: nat): T
    requires |s| == Area(w, h) && y < h && x < w
  {
    Inside(w, h, y, x);
    s[Area(w, y) + x]
  }

  /** Column `x` of a picture, from the bottom up. */
  function Column<T>(s: seq<T>, w: nat, h: nat, x: nat): seq<T>
    requires |s| == Area(w, h) && x < w
  {
    seq(h, j requires 0 <= j < h => Pixel(s, w, h, h - j - 1, x))
  }

  /** The first rows of the turned picture. */
  function Turned<T>(s: seq<T>, w: nat, h: nat, rows: nat): (r: seq<T>)
    requires |s| == Area(w, h) && rows <= w
    ensures |r| == Area(h, rows)
    decreases rows
  {
    if rows == 0 then [] else
      AreaStep(h, rows - 1);
      Turned(s, w, h, rows - 1) + Column(s, w, h, rows - 1)
  }

  /** The picture turned by ninety degrees: `h` wide and `w` high. */
  function Rotated<T>(s: seq<T>, w: nat, h: nat): (r: seq<T>)
    requires |s| == Area(w, h)
    ensures |r| == Area(h, w)
  {
    Turned(s, w, h, w)
  }

  lemma {:induction false} TurnedAt<T>(s: seq<T>, w: nat, h: nat, rows: nat, i: nat, j: nat)
    requires |s| == Area(w, h) && i < rows <= w && j < h
    ensures Pixel(Turned(s, w, h, rows), h, rows, i, j) == Pixel(s, w, h, h - j - 1, i)
    decreases rows
  {
    AreaStep(h, rows - 1);
    if i < rows - 1 {
      TurnedAt(s, w, h, rows - 1, i, j);
      Inside(h, rows - 1, i, j);
    }
  }

  /** Row `i`, column `j` of the turned picture is row `h - j - 1`, column `i` of the picture. */
  lemma RotatedAt<T>(s: seq<T>, w: nat, h: nat, i: nat, j: nat)
    requires |s| == Area(w, h) && i < w && j < h
    ensures Pixel(Rotated(s, w, h), h, w, i, j) == Pixel(s, w, h, h - j - 1, i)
  {
    TurnedAt(s, w, h, w, i, j);
  }

  lemma {:induction false} RowOf(w: nat, rows: nat, n: nat) returns (y: nat, x: nat)
    requires n < Area(w, rows)
    ensures y < rows && x < w && n == Area(w, y) + x
    decreases rows
  {
    AreaStep(w, rows - 1);
    if n < Area(w, rows - 1) {
      y, x := RowOf(w, rows - 1, n);
    } else {
      y, x := rows - 1, n - Area(w, rows - 1);
    }
  }

  lemma SamePixels<T>(s: seq<T>, t: seq<T>, w: nat, h: nat)
    requires |s| == |t| == Area(w, h)
    requires forall y: nat, x: nat :: y < h && x < w ==> Pixel(s, w, h, y, x) == Pixel(t, w, h, y, x)
    ensures s == t
  {
    forall n | 0 <= n < |s| ensures s[n] == t[n] {
      var y, x := RowOf(w, h, n);
      assert Pixel(s, w, h, y, x) == Pixel(t, w, h, y, x);
    }
  }

  lemma FourTurnsAt<T>(a: seq<T>, b: seq<T>, c: seq<T>, d: seq<T>, w: nat, h: nat, y: nat, x: nat)
    requires |a| == Area(w, h) && b == Rotated(a, w, h) && c == Rotated(b, h, w) && d == Rotated(c, w, h)
    requires y < h && x < w
    ensures Pixel(Rotated(d, h, w), w, h, y, x) == Pixel(a, w, h, y, x)
  {
    RotatedAt(d, h, w, y, x);
    RotatedAt(c, w, h, w - x - 1, y);
    RotatedAt(b, h, w, h - y - 1, w - x - 1);
    RotatedAt(a, w, h, x, h - y - 1);
  }

  /** Four quarter turns give the picture back. */
  lemma FourTurns<T>(s: seq<T>, w: nat, h: nat)
    requires |s| == Area(w, h)
    ensures Rotated(Rotated(Rotated(Rotated(s, w, h), h, w), w, h), h, w) == s
  {
    var b := Rotated(s, w, h);
    var c := Rotated(b, h, w);
    var d := Rotated(c, w, h);
    forall y: nat, x: nat | y < h && x < w ensures Pixel(Rotated(d, h, w), w, h, y, x) == Pixel(s, w, h, y, x) {
      FourTurnsAt(s, b, c, d, w, h, y, x);
    }
    SamePixels(Rotated(d, h, w), s, w, h);
  }

  /** A quarter turn moves the pixels one to one: no two pictures turn into the same, and every picture is a turned one. */
  lemma TurnIsBijection<T>(s: seq<T>, t: seq<T>, w: nat, h: nat)
    requires |s| == |t| == Area(w, h)
    ensures Rotated(s, w, h) == Rotated(t, w, h) ==> s == t
    ensures |s| == Area(h, w)
    ensures Rotated(Rotated(Rotated(Rotated(s, h, w), w, h), h, w), w, h) == s
  {
    FourTurns(s, w, h);
    FourTurns(t, w, h);
    FourTurns(s, h, w);
  }

  method YuvR90(dst: array<byte>, src: seq<byte>, width: nat, height: nat)
    requires |src| == Area(width, height) <= dst.Length
    modifies dst
    ensures dst[..Area(width, height)] == Rotated(src, width, height)
    ensures forall n :: Area(width, height) <= n < dst.Length ==> dst[n] == old(dst[n])
  {
    ghost var turned := Rotated(src, width, height);
    ghost var done := 0;
    for i := 0 to width
      invariant done == Area(height, i) <= |turned|
      invariant forall n :: 0 <= n < done ==> dst[n] == turned[n]
      invariant forall n :: done <= n < dst.Length ==> dst[n] == old(dst[n])
    {
      AreaStep(height, i);
      AreaMonotone(height, i + 1, width);
      for j := 0 to height
        invariant done == Area(height, i) + j <= |turned|
        invariant forall n :: 0 <= n < done ==> dst[n] == turned[n]
        invariant forall n :: done <= n < dst.Length ==> dst[n] == old(dst[n])
      {
        RotatedAt(src, width, height, i, j);
        Inside(width, height, height - j - 1, i);
        dst[j + i * height] := src[(height - j - 1) * width + i];
        done := done + 1;
      }
    }
  }

  /** The first `n` pairs of an interleaved plane. */
  function Pairs(s: seq<byte>, n: nat): seq<(byte, byte)>
    requires 2 * n <= |s|
  {
    seq(n, k requires 0 <= k < n => (s[2 * k], s[2 * k + 1]))
  }

  /** Doubling one factor doubles the product. */
  lemma Doubled(x: nat, y: nat)
    ensures x * (2 * y) == 2 * Area(y, x)
  {
  }

  /** The U bytes (`part` 0) or the V bytes (`part` 1) of the first `n` pairs. */
  function Part(s: seq<byte>, part: nat, n: nat): seq<byte>
    requires 2 * n <= |s| && part < 2
  {
    seq(n, k requires 0 <= k < n => s[2 * k + part])
  }

  lemma PartOfPairs(s: seq<byte>, n: nat, k: nat)
    requires 2 * n <= |s| && k < n
    ensures Pairs(s, n)[k] == (Part(s, 0, n)[k], Part(s, 1, n)[k])
  {
  }

  method Store(dst: array<byte>, at: nat, b: byte, ghost k: nat, ghost part: nat, ghost n: nat)
    requires part < 2 && at == 2 * k + part && k < n && 2 * n <= dst.Length
    modifies dst
    ensures Part(dst[..], part, n) == old(Part(dst[..], part, n))[k := b]
    ensures Part(dst[..], 1 - part, n) == old(Part(dst[..], 1 - part, n))
    ensures dst[2 * n..] == old(dst[2 * n..])
  {
    dst[at] := b;
  }

  /** What one pass over the pairs reads for row `i`, column `j` of the turned plane. */
  method Fetch(src: seq<byte>, width: nat, height: nat, part: nat, i: nat, j: nat, ghost w: nat, ghost h: nat) returns (b: byte)
    requires width == 2 * w && height == 2 * h && part < 2 && i < w && j < h
    requires |src| == 2 * Area(w, h)
    ensures b == Pixel(Part(src, part, Area(w, h)), w, h, h - j - 1, i)
  {
    Inside(w, h, h - j - 1, i);
    Doubled(h - j - 1, w);
    b := src[(height / 2 - j - 1) * width + i * 2 + part];
  }

  /** One pass over the pairs: copies the byte at `part` of every source pair to where its pair turns to. */
  method TurnPart(dst: array<byte>, src: seq<byte>, width: nat, height: nat, part: nat, ghost w: nat, ghost h: nat)
    requires width == 2 * w && height == 2 * h && part < 2
    requires |src| == 2 * Area(w, h) && 2 * Area(h, w) <= dst.Length
    modifies dst
    ensures Part(dst[..], part, Area(h, w)) == Rotated(Part(src, part, Area(w, h)), w, h)
    ensures Part(dst[..], 1 - part, Area(h, w)) == old(Part(dst[..], 1 - part, Area(h, w)))
    ensures dst[2 * Area(h, w)..] == old(dst[2 * Area(h, w)..])
  {
    ghost var plane, n := Part(src, part, Area(w, h)), Area(h, w);
    ghost var turned := Rotated(plane, w, h);
    ghost var other, rest := Part(dst[..], 1 - part, n), dst[2 * n..];
    ghost var now, done := Part(dst[..], part, n), 0;
    for i := 0 to width / 2
      invariant done == Area(h, i) <= n
      invariant now == Part(dst[..], part, n) && now[..done] == turned[..done]
      invariant Part(dst[..], 1 - part, n) == other && dst[2 * n..] == rest
    {
      AreaStep(h, i);
      AreaMonotone(h, i + 1, w);
      for j := 0 to height / 2
        invariant done == Area(h, i) + j <= n
        invariant now == Part(dst[..], part, n) && now[..done] == turned[..done]
        invariant Part(dst[..], 1 - part, n) == other && dst[2 * n..] == rest
      {
        RotatedAt(plane, w, h, i, j);
        var b := Fetch(src, width, height, part, i, j, w, h);
        Doubled(i, h);
        Store(dst, j * 2 + part + i * height, b, done, part, n);
        now := now[done := b];
        done := done + 1;
      }
    }
  }

  /** The chroma plane turned: every pair of bytes moves together. */
  method UvR90(dst: array<byte>, src: seq<byte>, width: nat, height: nat)
    requires width % 2 == 0 && height % 2 == 0
    requires |src| == 2 * Area(width / 2, height / 2) <= dst.Length
    modifies dst
    ensures Area(height / 2, width / 2) == Area(width / 2, height / 2)
    ensures Pairs(dst[..], Area(height / 2, width / 2)) == Rotated(Pairs(src, Area(width / 2, height / 2)), width / 2, height / 2)
    ensures dst[2 * Area(height / 2, width / 2)..] == old(dst[2 * Area(height / 2, width / 2)..])
  {
    ghost var w, h := width / 2, height / 2;
    TurnPart(dst, src, width, height, 0, w, h);
    TurnPart(dst, src, width, height, 1, w, h);
    PartsTurned(dst[..], src, w, h);
  }

  /** Turning both parts turns the pairs. */
  lemma PartsTurned(dst: seq<byte>, src: seq<byte>, w: nat, h: nat)
    requires |src| == 2 * Area(w, h) && 2 * Area(h, w) <= |dst|
    requires Part(dst, 0, Area(h, w)) == Rotated(Part(src, 0, Area(w, h)), w, h)
    requires Part(dst, 1, Area(h, w)) == Rotated(Part(src, 1, Area(w, h)), w, h)
    ensures Pairs(dst, Area(h, w)) == Rotated(Pairs(src, Area(w, h)), w, h)
  {
    var pairs := Pairs(src, Area(w, h));
    forall i: nat, j: nat | i < w && j < h
      ensures Pixel(Pairs(dst, Area(h, w)), h, w, i, j) == Pixel(Rotated(pairs, w, h), h, w, i, j)
    {
      RotatedAt(pairs, w, h, i, j);
      RotatedAt(Part(src, 0, Area(w, h)), w, h, i, j);
      RotatedAt(Part(src, 1, Area(w, h)), w, h, i, j);
      Inside(h, w, i, j);
      Inside(w, h, h - j - 1, i);
      PartOfPairs(src, Area(w, h), Area(w, h - j - 1) + i);
      PartOfPairs(dst, Area(h, w), Area(h, i) + j);
    }
    SamePixels(Pairs(dst, Area(h, w)), Rotated(pairs, w, h), h, w);
  }

  /** After turning both planes, a pixel still has the chroma pair of the pixel it came from. */
  lemma ChromaStaysAligned(y: seq<byte>, uv: seq<(byte, byte)>, w: nat, h: nat, i: nat, j: nat)
    requires w % 2 == 0 && h % 2 == 0 && |y| == Area(w, h) && |uv| == Area(w / 2, h / 2) && i < w && j < h
    ensures var r, c := h - j - 1, i;
      && Pixel(Rotated(y, w, h), h, w, i, j) == Pixel(y, w, h, r, c)
      && Pixel(Rotated(uv, w / 2, h / 2), h / 2, w / 2, i / 2, j / 2) == Pixel(uv, w / 2, h / 2, r / 2, c / 2)
  {
    RotatedAt(y, w, h, i, j);
    RotatedAt(uv, w / 2, h / 2, i / 2, j / 2);
    assert (h - j - 1) / 2 == h / 2 - j / 2 - 1;
  }
}
