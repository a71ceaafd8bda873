/** Lines 334-335 of bayer.py fill the red and green channels of the bottom-row green sites,
    columns 2, 4, ..., W-2, with one scalar each: the red sample at (H-2, W-2) and the green
    sample at (H-1, 2). Every other assignment of the routine uses the per-column slice its
    neighbours use, and the bilinear rule asks for the red sample above each site and the
    site's own green sample. `AsWrittenCounterexample` shows a mosaic on which the routine as
    written departs from that rule; `CorrectedEntry` replaces the two scalars by those slices,
    and `CorrectedMeetsIntended` proves the corrected routine computes the bilinear rule at
    every site. Module `Bayer` dispatches to either routine. */
module BottomRowFix {
  import opened Images
  import opened Slices
  import opened Interpolation

  /** Assignment k with lines 334-335 reading `image_bayer[-2, 2::2]` and
      `image_bayer[-1, 2::2]`; every assignment still writes the same cells. */
  function CorrectedEntry(k: nat): (a: Assign)
    requires k < Count
    ensures a.rows == Entry(k).rows && a.cols == Entry(k).cols && a.ch == Entry(k).ch
    ensures k != 42 && k != 43 ==> a == Entry(k)
  {
    if k == 42 then Assign(At(-1), From(2), 0, Copy(Plane(At(-2), From(2))))
    else if k == 43 then Assign(At(-1), From(2), 1, Copy(Plane(At(-1), From(2))))
    else Entry(k)
  }

  function CorrectedProgram(): seq<Assign> {
    seq(Count, k requires 0 <= k < Count => CorrectedEntry(k))
  }

  lemma CorrectedWellFormed(h: nat, w: nat)
    requires Dims(h, w)
    ensures AllWellFormed(CorrectedProgram(), h, w)
  {
    var prog := CorrectedProgram();
    forall k | 0 <= k < |prog| ensures WellFormed(prog[k], h, w) {
      if k == 42 || k == 43 {
        FitsEachWellFormed(prog[k], h, w);
      } else {
        EntryWellFormed(k, h, w);
      }
    }
  }

  /** At a bottom-row green site the bilinear rule takes red from the only red neighbour,
      the site right above, and keeps the site's own green sample. */
  lemma BottomGreenIntended(img: Mosaic, i: nat, j: nat)
    requires IsGrid(img) && Dims(|img|, Width(img)) && Inside(img, i, j)
    requires BottomRowGreen(img, i, j)
    ensures Intended(img, i, j).r == img[i - 1][j] && Intended(img, i, j).g == img[i][j]
  {
  }

  /** The two corrected assignments store, at a bottom-row green site, the red sample right
      above it and the site's own green sample. */
  lemma CorrectedBottomGreen(img: Mosaic, i: nat, j: nat, c: nat)
    requires IsGrid(img) && Dims(|img|, Width(img)) && Inside(img, i, j) && c < 2
    requires BottomRowGreen(img, i, j)
    ensures Owner(|img|, Width(img), i, j, c) == 42 + c
    ensures WellFormed(CorrectedEntry(42 + c), |img|, Width(img))
    ensures Writes(CorrectedEntry(42 + c), |img|, Width(img), i, j, c)
    ensures Eval(img, |img|, Width(img), CorrectedEntry(42 + c), i, j) == img[i - 1 + c][j]
  {
    FitsEachWellFormed(CorrectedEntry(42 + c), |img|, Width(img));
  }

  /** The corrected routine computes the bilinear rule at every site. */
  lemma CorrectedMeetsIntended(img: Mosaic, i: nat, j: nat, c: nat)
    requires IsGrid(img) && Dims(|img|, Width(img)) && Inside(img, i, j) && c < 3
    ensures AllWellFormed(CorrectedProgram(), |img|, Width(img))
    ensures Painted(img, |img|, Width(img), CorrectedProgram(), i, j, c) == Intended(img, i, j).Channel(c)
  {
    var h, w := |img|, Width(img);
    var prog := CorrectedProgram();
    CorrectedWellFormed(h, w);
    var k := Owner(h, w, i, j, c);
    CorrectedOwner(img, i, j, c);
    LaterMiss(h, w, i, j, c);
    forall m | k < m < |prog| ensures !Writes(prog[m], h, w, i, j, c) {
      assert !Writes(Entry(m), h, w, i, j, c);
    }
    assert prog[k] == CorrectedEntry(k);
    LastWriteWins(img, h, w, prog, k, i, j, c);
  }

  /** The corrected assignment owning a cell writes it, with the bilinear rule's value. */
  lemma CorrectedOwner(img: Mosaic, i: nat, j: nat, c: nat)
    requires IsGrid(img) && Dims(|img|, Width(img)) && Inside(img, i, j) && c < 3
    ensures Owner(|img|, Width(img), i, j, c) < Count
    ensures var k := Owner(|img|, Width(img), i, j, c);
      WellFormed(CorrectedEntry(k), |img|, Width(img)) && Writes(CorrectedEntry(k), |img|, Width(img), i, j, c)
      && Eval(img, |img|, Width(img), CorrectedEntry(k), i, j) == Intended(img, i, j).Channel(c)
  {
    var h, w := |img|, Width(img);
    var k := Owner(h, w, i, j, c);
    OwnerWrites(h, w, i, j, c);
    if BottomRowGreen(img, i, j) && c < 2 {
      CorrectedBottomGreen(img, i, j, c);
      BottomGreenIntended(img, i, j);
    } else {
      EvalReading(img, k, i, j);
      SiteReading(img, i, j, c);
      OwnerUncorrected(img, i, j, c);
    }
  }

  /** Only the red and green channels of bottom-row green sites are owned by the two
      corrected assignments. */
  lemma OwnerUncorrected(img: Mosaic, i: nat, j: nat, c: nat)
    requires IsGrid(img) && Dims(|img|, Width(img)) && Inside(img, i, j) && c < 3
    ensures var k := Owner(|img|, Width(img), i, j, c);
      (k == 42 || k == 43) <==> BottomRowGreen(img, i, j) && c < 2
  {
    var h, w := |img|, Width(img);
    if RowClass(h, i) == 3 && ColClass(w, j) == 2 {
      assert i % 2 == 1 && j % 2 == 0;
    }
  }

  /** The corrected routine run on a buffer: each cell ends with the bilinear rule. */
  method CorrectedInterpolationRggb(img: Mosaic) returns (res: array3<int>)
    requires IsGrid(img) && Dims(|img|, Width(img))
    ensures fresh(res)
    ensures res.Length0 == |img| && res.Length1 == Width(img) && res.Length2 == 3
    ensures forall i, j, c :: 0 <= i < res.Length0 && 0 <= j < res.Length1 && 0 <= c < 3 ==>
      res[i, j, c] == Intended(img, i, j).Channel(c)
  {
    var h, w := |img|, Width(img);
    res := new int[h, w, 3]((_, _, _) => 0);
    CorrectedWellFormed(h, w);
    Run(res, img, CorrectedProgram());
    forall i, j, c | 0 <= i < h && 0 <= j < w && 0 <= c < 3
      ensures res[i, j, c] == Intended(img, i, j).Channel(c)
    {
      CorrectedMeetsIntended(img, i, j, c);
    }
  }

  /** The whole image the corrected routine produces: the bilinear rule at every site. */
  function CorrectedInterpolate(img: Mosaic): (out: RgbImage)
    requires IsGrid(img) && Dims(|img|, Width(img))
    ensures HasShape(out, |img|, Width(img))
  {
    seq(|img|, i requires 0 <= i < |img| => seq(Width(img), j requires 0 <= j < Width(img) => Intended(img, i, j)))
  }

  /** A 2 x 6 mosaic whose red samples on row 0 differ: the routine as written stores red 2
      (the sample at (0, 4)) at the bottom-row green site (1, 2), whose only red neighbour,
      (0, 2), holds 1. */
  lemma AsWrittenCounterexample(img: Mosaic)
    requires img == [[0, 0, 1, 0, 2, 0], [0, 0, 0, 0, 0, 0]]
    ensures IsGrid(img) && Dims(|img|, Width(img)) && AllWellFormed(Program(), |img|, Width(img))
    ensures Painted(img, |img|, Width(img), Program(), 1, 2, 0) == 2
    ensures Intended(img, 1, 2).r == 1
  {
    ProgramMeetsSpec(img, 1, 2, 0);
    assert BottomRowGreen(img, 1, 2);
    BottomGreenIntended(img, 1, 2);
  }
}
