/**
 Exactly when the crop shows the bottom rows of the picture.
 */
module CropExact {
  import opened Prelude
  import opened Raster
  import opened Yuyv
  import opened YuyvCrop

  /** A picture whose only bytes other than 0 are the chroma bytes of row `y`. */
  function Stripe(w: nat, h: nat, y: nat): (s: seq<byte>)
    ensures |s| == 2 * Area(w, h)
  {
    seq(2 * Area(w, h), n requires 0 <= n => if n % 2 == 1 && 2 * Area(w, y) <= n < 2 * Area(w, y) + 2 * w then 1 else 0)
  }

  lemma StripeAt(w: nat, h: nat, y: nat, row: nat, k: nat)
    requires row < h && k < 2 * w
    ensures 2 * Area(w, row) + k < |Stripe(w, h, y)|
    ensures Stripe(w, h, y)[2 * Area(w, row) + k] == if row == y && k % 2 == 1 then 1 else 0
  {
    AreaStep(w, row);
    AreaMonotone(w, row + 1, h);
    var at := 2 * Area(w, row) + k;
    assert at % 2 == k % 2;
    if row < y {
      AreaMonotone(w, row + 1, y);
    } else if y < row {
      AreaStep(w, y);
      AreaMonotone(w, y + 1, row);
    }
  }

  lemma Cancel(w: nat, a: nat, b: nat)
    requires w > 0 && Area(w, a) <= Area(w, b)
    ensures a <= b
  {
    if b < a {
      AreaStep(w, b);
      AreaMonotone(w, b + 1, a);
    }
  }

  /** The average of the first U bytes of rows `2 * r` and `2 * r + 1` of a stripe. */
  lemma StripeAveraged(w: nat, h: nat, y: nat, r: nat)
    requires 2 * r + 1 < h && w > 0
    ensures Averaged(Stripe(w, h, y), 4 * Area(w, r), w, 1) == if y == 2 * r || y == 2 * r + 1 then 1 else 0
  {
    AreaAdd(w, r, r);
    AreaStep(w, 2 * r);
    StripeAt(w, h, y, 2 * r, 1);
    StripeAt(w, h, y, 2 * r + 1, 1);
    assert 2 * Area(w, 2 * r) == 4 * Area(w, r);
  }

  lemma BottomAveraged(w: nat, h: nat, mh: nat)
    requires w > 0 && 2 <= mh <= h
    ensures Averaged(Bottom(Stripe(w, h, h - mh + 1), w, h, mh), 0, w, 1) == 1
  {
    var off := h - mh;
    AreaStep(w, off);
    StripeAt(w, h, off + 1, off, 1);
    StripeAt(w, h, off + 1, off + 1, 1);
    AveragedShift(Stripe(w, h, off + 1), 2 * Area(w, off), 0, w, 1);
  }

  /** Converting the bottom rows shows the stripe in the first chroma byte. */
  lemma BottomShows(w: nat, h: nat, mh: nat)
    requires w % 2 == 0 && w > 0 && 2 <= mh <= h
    ensures Area(w, mh) < PlanarSize(w, mh)
    ensures Planar(Bottom(Stripe(w, h, h - mh + 1), w, h, mh), w, mh, 1)[Area(w, mh)] == 1
  {
    BottomAveraged(w, h, mh);
    FirstChroma(Bottom(Stripe(w, h, h - mh + 1), w, h, mh), w, mh);
  }

  lemma FirstChroma(src: seq<byte>, w: nat, h: nat)
    requires w % 2 == 0 && w > 0 && 2 <= h && 2 * Area(w, h) <= |src|
    ensures Area(w, h) < PlanarSize(w, h)
    ensures Planar(src, w, h, 1)[Area(w, h)] == Averaged(src, 0, w, 1)
  {
    assert Area(w, 0) == 0;
    PlanarAt(src, w, h, 0, 0);
  }

  /** The chroma row the crop takes for the first is another one. */
  lemma OtherRow(h: nat, mh: nat, ch: nat, r: nat)
    requires 2 <= mh <= h && ch % 2 == 0 && r == ch + (h - mh) / 2 - h && r + mh / 2 <= h / 2
    requires !(h == ch && mh % 2 == 0)
    ensures h - mh + 1 != 2 * r && h - mh + 1 != 2 * r + 1
  {
  }

  /** The first chroma row the crop takes, counted from the top of the planar form. */
  lemma CropRow(w: nat, h: nat, ch: nat, mh: nat, row: nat)
    requires w > 0 && 2 <= mh <= h && row == ch + (h - mh) / 2 && CropFits(PlanarSize(w, h), w, ch, h, mh)
    ensures Area(w, row) == Area(w, ch) + Area(w, (h - mh) / 2)
    ensures row + mh / 2 <= h + h / 2
  {
    AreaAdd(w, ch, (h - mh) / 2);
    AreaAdd(w, row, mh / 2);
    AreaAdd(w, h, h / 2);
    Cancel(w, row + mh / 2, h + h / 2);
  }

  lemma StripeLuma(w: nat, h: nat, y: nat, row: nat)
    requires w % 2 == 0 && w > 0 && row < h
    ensures Area(w, row) < PlanarSize(w, h) && Planar(Stripe(w, h, y), w, h, 1)[Area(w, row)] == 0
  {
    AreaStep(w, row);
    AreaMonotone(w, row + 1, h);
    LumaAt(Stripe(w, h, y), w, h, 1, Area(w, row));
    StripeAt(w, h, y, row, 0);
  }

  lemma StripeChroma(w: nat, h: nat, y: nat, row: nat, r: nat)
    requires w % 2 == 0 && w > 0 && row == h + r && r < h / 2 && y != 2 * r && y != 2 * r + 1
    ensures Area(w, row) < PlanarSize(w, h) && Planar(Stripe(w, h, y), w, h, 1)[Area(w, row)] == 0
  {
    AreaAdd(w, h, r);
    PlanarAt(Stripe(w, h, y), w, h, r, 0);
    StripeAveraged(w, h, y, r);
  }

  /** The crop of the wrong size, or of an odd number of rows, shows 0 there. */
  lemma CropMisses(w: nat, h: nat, ch: nat, mh: nat)
    requires w % 2 == 0 && w > 0 && 2 <= mh <= h && ch % 2 == 0
    requires CropFits(PlanarSize(w, h), w, ch, h, mh) && !(h == ch && mh % 2 == 0)
    ensures Area(w, ch) + Area(w, (h - mh) / 2) < PlanarSize(w, h)
    ensures Planar(Stripe(w, h, h - mh + 1), w, h, 1)[Area(w, ch) + Area(w, (h - mh) / 2)] == 0
  {
    var row := ch + (h - mh) / 2;
    CropRow(w, h, ch, mh, row);
    if row < h {
      StripeLuma(w, h, h - mh + 1, row);
    } else {
      OtherRow(h, mh, ch, row - h);
      StripeChroma(w, h, h - mh + 1, row, row - h);
    }
  }

  lemma WrongWidth(w: nat, cw: nat, mh: nat)
    requires w != cw && mh > 0
    ensures PlanarSize(w, mh) != PlanarSize(cw, mh)
  {
    var m := mh + mh / 2;
    AreaAdd(w, mh, mh / 2);
    AreaAdd(cw, mh, mh / 2);
    if w < cw {
      Wider(w, cw, m);
    } else {
      Wider(cw, w, m);
    }
  }

  lemma Wider(w: nat, cw: nat, m: nat)
    requires w < cw && m > 0
    ensures Area(w, m) < Area(cw, m)
  {
    assert cw * m == w * m + (cw - w) * m;
  }

  /** When a crop of `mh` rows, measured for captures of `cw` by `ch`, is right. */
  predicate RightCrop(w: nat, h: nat, cw: nat, ch: nat, mh: nat) {
    mh == 0 || (w == cw && (mh == 1 || (h == ch && mh % 2 == 0)))
  }

  /**
   A crop measured for captures of `cw` by `ch` shows the picture's bottom rows, whatever the picture, if and
   only if the picture has that size and the number of rows is even, or there is one row, which has no
   chroma, of that width, or no row.
   */
  lemma CropExactly(w: nat, h: nat, cw: nat, ch: nat, mh: nat)
    requires w % 2 == 0 && cw > 0 && ch % 2 == 0
    requires CropFits(PlanarSize(w, h), cw, ch, h, mh)
    ensures (forall src: seq<byte> :: |src| == 2 * Area(w, h) ==> Commutes(src, w, h, cw, ch, mh))
      <==> RightCrop(w, h, cw, ch, mh)
  {
    if RightCrop(w, h, cw, ch, mh) {
      forall src: seq<byte> | |src| == 2 * Area(w, h) ensures Commutes(src, w, h, cw, ch, mh) {
        if mh < 2 {
          LumaAlone(src, w, h, cw, ch, mh);
        } else {
          CropCommutes(src, w, h, mh);
        }
      }
    } else {
      var src := Stripe(w, h, h - mh + 1);
      StripeTells(src, w, h, cw, ch, mh);
    }
  }

  /** A crop of fewer than two rows has no chroma, and its luma is that of the last row. */
  lemma LumaAlone(src: seq<byte>, w: nat, h: nat, cw: nat, ch: nat, mh: nat)
    requires w % 2 == 0 && |src| == 2 * Area(w, h) && CropFits(PlanarSize(w, h), cw, ch, h, mh)
    requires mh == 0 || (mh == 1 && w == cw)
    ensures Commutes(src, w, h, cw, ch, mh)
  {
    var bottom := Bottom(src, w, h, mh);
    PlanarParts(bottom, w, mh);
    if mh == 1 {
      AreaAdd(w, h - 1, 1);
      PlanarParts(src, w, h);
      LumaParts(src, Area(w, h - 1), Area(w, 1));
      assert ChromaOf(bottom, w, w / 2, 0) == [];
    }
  }

  /** Otherwise a stripe in the second row to be shown tells the two apart. */
  lemma StripeTells(src: seq<byte>, w: nat, h: nat, cw: nat, ch: nat, mh: nat)
    requires w % 2 == 0 && cw > 0 && ch % 2 == 0
    requires CropFits(PlanarSize(w, h), cw, ch, h, mh) && !RightCrop(w, h, cw, ch, mh)
    requires src == Stripe(w, h, h - mh + 1)
    ensures |src| == 2 * Area(w, h) && !Commutes(src, w, h, cw, ch, mh)
  {
    if w != cw {
      WrongWidth(w, cw, mh);
      CropSize(Planar(src, w, h, 1), cw, ch, h, mh);
    } else {
      BottomShows(w, h, mh);
      CropMisses(w, h, ch, mh);
      Apart(src, w, h, ch, mh);
    }
  }

  lemma CropSize(s: seq<byte>, cw: nat, ch: nat, h: nat, mh: nat)
    requires CropFits(|s|, cw, ch, h, mh)
    ensures |Crop(s, cw, ch, h, mh)| == PlanarSize(cw, mh)
  {
  }

  lemma Apart(src: seq<byte>, w: nat, h: nat, ch: nat, mh: nat)
    requires w % 2 == 0 && w > 0 && |src| == 2 * Area(w, h) && 2 <= mh <= h && CropFits(PlanarSize(w, h), w, ch, h, mh)
    requires Area(w, ch) + Area(w, (h - mh) / 2) < PlanarSize(w, h) && Area(w, mh) < PlanarSize(w, mh)
    requires Planar(src, w, h, 1)[Area(w, ch) + Area(w, (h - mh) / 2)] != Planar(Bottom(src, w, h, mh), w, mh, 1)[Area(w, mh)]
    ensures !Commutes(src, w, h, w, ch, mh)
  {
    assert Crop(Planar(src, w, h, 1), w, ch, h, mh)[Area(w, mh)] == Planar(src, w, h, 1)[Area(w, ch) + Area(w, (h - mh) / 2)];
  }
}
