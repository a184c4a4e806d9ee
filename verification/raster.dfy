/** Counting the pixels of rows. */
module Raster {

  function Area(w: nat, rows: nat): nat {
    w * rows
  }

  lemma AreaAdd(w: nat, a: nat, b: nat)
    ensures Area(w, a + b) == Area(w, a) + Area(w, b)
  {
  }

  lemma AreaStep(w: nat, rows: nat)
    ensures Area(w, rows + 1) == Area(w, rows) + w
  {
  }

  lemma AreaMonotone(w: nat, r: nat, rows: nat)
    requires r <= rows
    ensures Area(w, r) <= Area(w, rows)
  {
    AreaAdd(w, r, rows - r);
  }
}
