/** Full-resolution reconstruction of an RGGB mosaic (`interpolation_rggb`, bayer.py:101-357).

    The routine is a fixed list of 48 numpy slice assignments into an H x W x 3 zero buffer;
    `Program` transcribes that list, in source order, and `InterpolationRggb` runs it. The
    per-pixel rule it amounts to is `Interpolated`: the truncated mean of the in-bounds
    neighbours of the right colour (`Intended`), except on the bottom row, where lines 334-335
    store two scalars across the whole row. `ProgramMeetsSpec` proves the two agree. */
module Interpolation {
  import opened Images
  import opened Slices

  /** Assignment k of `interpolation_rggb`, in the order the source performs them;
      channel 0 is red, 1 green, 2 blue. The comment gives the source line. */
  function Entry(k: nat): Assign
    requires k < Count
  {
    match k
    case 0 => Assign(At(0), At(0), 0, Copy(Plane(At(0), At(0)))) // 107
    case 1 => Assign(At(0), At(0), 1, Mean2(Plane(At(0), At(1)), Plane(At(1), At(0)))) // 115
    case 2 => Assign(At(0), At(0), 2, Copy(Plane(At(1), At(1)))) // 118
    case 3 => Assign(At(0), Range(1, -1), 0, Mean2(Plane(At(0), Range(0, -2)), Plane(At(0), From(2)))) // 127
    case 4 => Assign(At(0), From(1), 1, Copy(Plane(At(0), From(1)))) // 130
    case 5 => Assign(At(0), From(1), 2, Copy(Plane(At(1), From(1)))) // 133
    case 6 => Assign(At(0), Range(2, -1), 0, Copy(Plane(At(0), Range(2, -1)))) // 137
    case 7 => Assign(At(0), From(2), 1, Mean3(Plane(At(0), Range(1, -1)), Plane(At(0), From(3)), Plane(At(1), From(2)))) // 146
    case 8 => Assign(At(0), Range(2, -1), 2, Mean2(Plane(At(1), Range(1, -1)), Plane(At(1), From(3)))) // 153
    case 9 => Assign(At(0), At(-1), 0, Copy(Plane(At(0), At(-2)))) // 156
    case 10 => Assign(At(0), At(-1), 1, Copy(Plane(At(0), At(-1)))) // 157
    case 11 => Assign(At(0), At(-1), 2, Copy(Plane(At(1), At(-1)))) // 158
    case 12 => Assign(Range(1, -1), At(0), 0, Mean2(Plane(Range(0, -2), At(0)), Plane(From(2), At(0)))) // 167
    case 13 => Assign(From(1), At(0), 1, Copy(Plane(From(1), At(0)))) // 170
    case 14 => Assign(From(1), At(0), 2, Copy(Plane(From(1), At(1)))) // 173
    case 15 => Assign(Range(1, -1), Range(1, -1), 0, Mean4(Plane(Range(0, -2), Range(0, -2)), Plane(Range(0, -2), From(2)), Plane(From(2), Range(0, -2)), Plane(From(2), From(2)))) // 183
    case 16 => Assign(Range(1, -1), Range(1, -1), 1, Mean4(Plane(Range(0, -2), Range(1, -1)), Plane(Range(1, -1), Range(0, -2)), Plane(Range(1, -1), From(2)), Plane(From(2), Range(1, -1)))) // 192
    case 17 => Assign(From(1), From(1), 2, Copy(Plane(From(1), From(1)))) // 195
    case 18 => Assign(Range(1, -1), Range(2, -1), 0, Mean2(Plane(Range(0, -2), Range(2, -1)), Plane(From(2), Range(2, -1)))) // 203
    case 19 => Assign(From(1), Range(2, -1), 1, Copy(Plane(From(1), Range(2, -1)))) // 206
    case 20 => Assign(From(1), Range(2, -1), 2, Mean2(Plane(From(1), Range(1, -1)), Plane(From(1), From(3)))) // 213
    case 21 => Assign(Range(1, -1), At(-1), 0, Mean2(Plane(Range(0, -2), At(-2)), Plane(From(2), At(-2)))) // 221
    case 22 => Assign(Range(1, -1), From(-1), 1, Mean3(Plane(Range(0, -2), From(-1)), Plane(Range(1, -1), From(-2)), Plane(From(2), From(-1)))) // 229
    case 23 => Assign(From(1), From(-1), 2, Copy(Plane(From(1), From(-1)))) // 232
    case 24 => Assign(Range(2, -1), At(0), 0, Copy(Plane(Range(2, -1), At(0)))) // 236
    case 25 => Assign(Range(2, -1), At(0), 1, Mean3(Plane(Range(1, -1), At(0)), Plane(Range(2, -1), At(1)), Plane(From(3), At(0)))) // 244
    case 26 => Assign(Range(2, -1), At(0), 2, Mean2(Plane(Range(1, -1), At(1)), Plane(From(3), At(1)))) // 251
    case 27 => Assign(Range(2, -1), Range(1, -1), 0, Mean2(Plane(Range(2, -1), Range(0, -2)), Plane(Range(2, -1), From(2)))) // 259
    case 28 => Assign(Range(2, -1), From(1), 1, Copy(Plane(Range(2, -1), From(1)))) // 262
    case 29 => Assign(Range(2, -1), From(1), 2, Mean2(Plane(Range(1, -1), From(1)), Plane(From(3), From(1)))) // 269
    case 30 => Assign(Range(2, -1), Range(2, -1), 0, Copy(Plane(Range(2, -1), Range(2, -1)))) // 273
    case 31 => Assign(Range(2, -1), Range(2, -1), 1, Mean4(Plane(Range(1, -1), Range(2, -1)), Plane(Range(2, -1), Range(1, -1)), Plane(Range(2, -1), From(3)), Plane(From(3), Range(2, -1)))) // 282
    case 32 => Assign(Range(2, -1), Range(2, -1), 2, Mean4(Plane(Range(1, -1), Range(1, -1)), Plane(Range(1, -1), From(3)), Plane(From(3), Range(1, -1)), Plane(From(3), From(3)))) // 291
    case 33 => Assign(From(2), At(-1), 0, Copy(Plane(From(2), At(-2)))) // 295
    case 34 => Assign(From(2), At(-1), 1, Copy(Plane(From(2), At(-1)))) // 298
    case 35 => Assign(From(2), At(-1), 2, Mean2(Plane(Range(1, -1), At(-1)), Plane(From(3), At(-1)))) // 305
    case 36 => Assign(At(-1), At(0), 0, Copy(Plane(At(-2), At(0)))) // 309
    case 37 => Assign(At(-1), At(0), 1, Copy(Plane(At(-1), At(0)))) // 310
    case 38 => Assign(At(-1), At(0), 2, Copy(Plane(At(-1), At(1)))) // 311
    case 39 => Assign(At(-1), Range(1, -1), 0, Mean2(Plane(At(-2), Range(0, -2)), Plane(At(-2), From(2)))) // 319
    case 40 => Assign(At(-1), Range(1, -1), 1, Mean3(Plane(At(-2), Range(1, -1)), Plane(At(-1), Range(0, -2)), Plane(At(-1), Range(2, -1)))) // 327
    case 41 => Assign(At(-1), From(1), 2, Copy(Plane(At(-1), From(1)))) // 330
    case 42 => Assign(At(-1), From(2), 0, Copy(Plane(At(-2), At(-2)))) // 334
    case 43 => Assign(At(-1), From(2), 1, Copy(Plane(At(-1), At(2)))) // 335
    case 44 => Assign(At(-1), From(2), 2, Mean2(Plane(At(-1), Range(1, -1)), Plane(At(-1), From(3)))) // 342
    case 45 => Assign(At(-1), At(-1), 0, Copy(Plane(At(-2), At(-2)))) // 346
    case 46 => Assign(At(-1), At(-1), 1, Mean2(Plane(At(-2), At(-1)), Plane(At(-1), At(-2)))) // 351
    case _ => Assign(At(-1), At(-1), 2, Copy(Plane(At(-1), At(-1)))) // 354, k = 47
  }

  const Count := 48

  /** The assignments of `interpolation_rggb`, in source order. */
  function Program(): seq<Assign> {
    seq(Count, k requires 0 <= k < Count => Entry(k))
  }

  /** The dimensions the routine works for: even, at least 2 rows, and at least 4 columns
      (line 335 reads column 2). */
  predicate Dims(h: nat, w: nat) {
    h % 2 == 0 && w % 2 == 0 && h >= 2 && w >= 4
  }

  /** Under those dimensions no assignment raises IndexError or a broadcasting error. */
  lemma ProgramWellFormed(h: nat, w: nat)
    requires Dims(h, w)
    ensures AllWellFormed(Program(), h, w)
  {
    var prog := Program();
    forall k | 0 <= k < |prog| ensures WellFormed(prog[k], h, w) {
      EntryWellFormed(k, h, w);
    }
  }

  lemma EntryWellFormed(k: nat, h: nat, w: nat)
    requires k < Count && Dims(h, w)
    ensures WellFormed(Entry(k), h, w)
  {
    if k < 3 { WellFormed0(k, h, w); }
    else if k < 6 { WellFormed3(k, h, w); }
    else if k < 9 { WellFormed6(k, h, w); }
    else if k < 12 { WellFormed9(k, h, w); }
    else if k < 15 { WellFormed12(k, h, w); }
    else if k < 18 { WellFormed15(k, h, w); }
    else if k < 21 { WellFormed18(k, h, w); }
    else if k < 24 { WellFormed21(k, h, w); }
    else if k < 27 { WellFormed24(k, h, w); }
    else if k < 30 { WellFormed27(k, h, w); }
    else if k < 33 { WellFormed30(k, h, w); }
    else if k < 36 { WellFormed33(k, h, w); }
    else if k < 39 { WellFormed36(k, h, w); }
    else if k < 42 { WellFormed39(k, h, w); }
    else if k < 45 { WellFormed42(k, h, w); }
    else { WellFormed45(k, h, w); }
    FitsEachWellFormed(Entry(k), h, w);
  }

  lemma WellFormed0(k: nat, h: nat, w: nat)
    requires 0 <= k < 3 && Dims(h, w)
    ensures FitsEach(Entry(k), h, w)
  {
    match k {
      case 0 => case 1 =>
      case _ =>
    }
  }

  lemma WellFormed3(k: nat, h: nat, w: nat)
    requires 3 <= k < 6 && Dims(h, w)
    ensures FitsEach(Entry(k), h, w)
  {
    match k {
      case 3 => case 4 =>
      case _ =>
    }
  }

  lemma WellFormed6(k: nat, h: nat, w: nat)
    requires 6 <= k < 9 && Dims(h, w)
    ensures FitsEach(Entry(k), h, w)
  {
    match k {
      case 6 => case 7 =>
      case _ =>
    }
  }

  lemma WellFormed9(k: nat, h: nat, w: nat)
    requires 9 <= k < 12 && Dims(h, w)
    ensures FitsEach(Entry(k), h, w)
  {
    match k {
      case 9 => case 10 =>
      case _ =>
    }
  }

  lemma WellFormed12(k: nat, h: nat, w: nat)
    requires 12 <= k < 15 && Dims(h, w)
    ensures FitsEach(Entry(k), h, w)
  {
    match k {
      case 12 => case 13 =>
      case _ =>
    }
  }

  lemma WellFormed15(k: nat, h: nat, w: nat)
    requires 15 <= k < 18 && Dims(h, w)
    ensures FitsEach(Entry(k), h, w)
  {
    match k {
      case 15 => case 16 =>
      case _ =>
    }
  }

  lemma WellFormed18(k: nat, h: nat, w: nat)
    requires 18 <= k < 21 && Dims(h, w)
    ensures FitsEach(Entry(k), h, w)
  {
    match k {
      case 18 => case 19 =>
      case _ =>
    }
  }

  lemma WellFormed21(k: nat, h: nat, w: nat)
    requires 21 <= k < 24 && Dims(h, w)
    ensures FitsEach(Entry(k), h, w)
  {
    match k {
      case 21 => case 22 =>
      case _ =>
    }
  }

  lemma WellFormed24(k: nat, h: nat, w: nat)
    requires 24 <= k < 27 && Dims(h, w)
    ensures FitsEach(Entry(k), h, w)
  {
    match k {
      case 24 => case 25 =>
      case _ =>
    }
  }

  lemma WellFormed27(k: nat, h: nat, w: nat)
    requires 27 <= k < 30 && Dims(h, w)
    ensures FitsEach(Entry(k), h, w)
  {
    match k {
      case 27 => case 28 =>
      case _ =>
    }
  }

  lemma WellFormed30(k: nat, h: nat, w: nat)
    requires 30 <= k < 33 && Dims(h, w)
    ensures FitsEach(Entry(k), h, w)
  {
    match k {
      case 30 => case 31 =>
      case _ =>
    }
  }

  lemma WellFormed33(k: nat, h: nat, w: nat)
    requires 33 <= k < 36 && Dims(h, w)
    ensures FitsEach(Entry(k), h, w)
  {
    match k {
      case 33 => case 34 =>
      case _ =>
    }
  }

  lemma WellFormed36(k: nat, h: nat, w: nat)
    requires 36 <= k < 39 && Dims(h, w)
    ensures FitsEach(Entry(k), h, w)
  {
    match k {
      case 36 => case 37 =>
      case _ =>
    }
  }

  lemma WellFormed39(k: nat, h: nat, w: nat)
    requires 39 <= k < 42 && Dims(h, w)
    ensures FitsEach(Entry(k), h, w)
  {
    match k {
      case 39 => case 40 =>
      case _ =>
    }
  }

  lemma WellFormed42(k: nat, h: nat, w: nat)
    requires 42 <= k < 45 && Dims(h, w)
    ensures FitsEach(Entry(k), h, w)
  {
    match k {
      case 42 => case 43 =>
      case _ =>
    }
  }

  lemma WellFormed45(k: nat, h: nat, w: nat)
    requires 45 <= k < 48 && Dims(h, w)
    ensures FitsEach(Entry(k), h, w)
  {
    match k {
      case 45 => case 46 =>
      case _ =>
    }
  }

  /** A set of neighbour offsets (row, column): a pair or a quadruple. */
  datatype Offsets =
    | Pair(d1: (int, int), d2: (int, int))
    | Quad(d1: (int, int), d2: (int, int), d3: (int, int), d4: (int, int))

  /** The four orthogonal neighbours, the four diagonal ones, and the horizontal and vertical
      pairs. */
  const Orthogonal := Quad((-1, 0), (1, 0), (0, -1), (0, 1))
  const Diagonal := Quad((-1, -1), (-1, 1), (1, -1), (1, 1))
  const Horizontal := Pair((0, -1), (0, 1))
  const Vertical := Pair((-1, 0), (1, 0))

  predicate Inside(img: Mosaic, i: int, j: int) {
    0 <= i < |img| && 0 <= j < Width(img)
  }

  /** The sample at (i, j) if that site exists, and 0 otherwise. */
  function Get(img: Mosaic, i: int, j: int): int
    requires IsGrid(img)
  {
    if Inside(img, i, j) then img[i][j] else 0
  }

  function Present(img: Mosaic, i: int, j: int): nat {
    if Inside(img, i, j) then 1 else 0
  }

  /** Sum and number of the neighbours of (i, j), at the offsets ds, that lie in the grid. */
  function NeighbourSum(img: Mosaic, i: int, j: int, ds: Offsets): int
    requires IsGrid(img)
  {
    match ds
    case Pair(a, b) => Get(img, i + a.0, j + a.1) + Get(img, i + b.0, j + b.1)
    case Quad(a, b, c, d) =>
      Get(img, i + a.0, j + a.1) + Get(img, i + b.0, j + b.1)
      + Get(img, i + c.0, j + c.1) + Get(img, i + d.0, j + d.1)
  }

  function NeighbourCount(img: Mosaic, i: int, j: int, ds: Offsets): nat {
    match ds
    case Pair(a, b) => Present(img, i + a.0, j + a.1) + Present(img, i + b.0, j + b.1)
    case Quad(a, b, c, d) =>
      Present(img, i + a.0, j + a.1) + Present(img, i + b.0, j + b.1)
      + Present(img, i + c.0, j + c.1) + Present(img, i + d.0, j + d.1)
  }

  /** The truncated mean of the in-grid neighbours at offsets ds: a neighbour outside the grid
      is left out and the divisor shrinks with it. */
  function NeighbourMean(img: Mosaic, i: int, j: int, ds: Offsets): int
    requires IsGrid(img) && NeighbourCount(img, i, j, ds) > 0
  {
    NeighbourSum(img, i, j, ds) / NeighbourCount(img, i, j, ds)
  }

  /** Bilinear reconstruction at a site (i, j) that records colour ph: the site's own colour is
      its sample; each of the two missing colours is the truncated mean of the in-grid
      neighbours that record it. */
  function Bilinear(img: Mosaic, i: nat, j: nat, ph: Phase): Rgb
    requires IsGrid(img) && Dims(|img|, Width(img)) && Inside(img, i, j)
  {
    match ph
    case Red => Rgb(img[i][j], NeighbourMean(img, i, j, Orthogonal), NeighbourMean(img, i, j, Diagonal))
    case GreenOnRed => Rgb(NeighbourMean(img, i, j, Horizontal), img[i][j], NeighbourMean(img, i, j, Vertical))
    case GreenOnBlue => Rgb(NeighbourMean(img, i, j, Vertical), img[i][j], NeighbourMean(img, i, j, Horizontal))
    case Blue => Rgb(NeighbourMean(img, i, j, Diagonal), NeighbourMean(img, i, j, Orthogonal), img[i][j])
  }

  /** The bilinear rule in the RGGB layout. */
  function Intended(img: Mosaic, i: nat, j: nat): Rgb
    requires IsGrid(img) && Dims(|img|, Width(img)) && Inside(img, i, j)
  {
    Bilinear(img, i, j, PhaseAt(i, j))
  }

  /** Whether (i, j) is a green site of the bottom row in columns 2 .. W-2, the sites whose red
      and green lines 334-335 fill with one scalar each. */
  predicate BottomRowGreen(img: Mosaic, i: nat, j: nat) {
    i == |img| - 1 && PhaseAt(i, j) == GreenOnBlue && j >= 2
  }

  /** What `interpolation_rggb` stores at (i, j): the bilinear reconstruction, except that on
      the bottom row every green site from column 2 on gets red = I[H-2][W-2] and
      green = I[H-1][2]. */
  function Interpolated(img: Mosaic, i: nat, j: nat): Rgb
    requires IsGrid(img) && Dims(|img|, Width(img)) && Inside(img, i, j)
  {
    var v := Intended(img, i, j);
    if BottomRowGreen(img, i, j) then v.(r := img[|img| - 2][Width(img) - 2], g := img[|img| - 1][2])
    else v
  }

  /** Where a site lies: first row, odd inner row, even inner row, last row (and likewise for
      columns). The routine handles each of the 4 x 4 combinations, channel by channel, in
      one assignment, and in that order, so assignment 12 * row class + 3 * column class + c
      is the one that leaves channel c of the site with its final value. */
  function RowClass(h: nat, i: nat): nat {
    if i == 0 then 0 else if i == h - 1 then 3 else if i % 2 == 1 then 1 else 2
  }

  function ColClass(w: nat, j: nat): nat {
    if j == 0 then 0 else if j == w - 1 then 3 else if j % 2 == 1 then 1 else 2
  }

  function Owner(h: nat, w: nat, i: nat, j: nat, c: nat): nat {
    12 * RowClass(h, i) + 3 * ColClass(w, j) + c
  }

  /** Assignment k read cell by cell: the samples, relative to the written cell (i, j), that
      the slices of its right-hand side pair with that cell, and the divisor. */
  function Reading(img: Mosaic, k: nat, i: int, j: int): int
    requires IsGrid(img) && k < Count
  {
    var h, w := |img|, Width(img);
    match k
    case 0 => Get(img, 0, 0) // 107
    case 1 => (Get(img, 0, 1) + Get(img, 1, 0)) / 2 // 115
    case 2 => Get(img, 1, 1) // 118
    case 3 => (Get(img, 0, j - 1) + Get(img, 0, j + 1)) / 2 // 127
    case 4 => Get(img, 0, j) // 130
    case 5 => Get(img, 1, j) // 133
    case 6 => Get(img, 0, j) // 137
    case 7 => (Get(img, 0, j - 1) + Get(img, 0, j + 1) + Get(img, 1, j)) / 3 // 146
    case 8 => (Get(img, 1, j - 1) + Get(img, 1, j + 1)) / 2 // 153
    case 9 => Get(img, 0, w - 2) // 156
    case 10 => Get(img, 0, w - 1) // 157
    case 11 => Get(img, 1, w - 1) // 158
    case 12 => (Get(img, i - 1, 0) + Get(img, i + 1, 0)) / 2 // 167
    case 13 => Get(img, i, 0) // 170
    case 14 => Get(img, i, 1) // 173
    case 15 => (Get(img, i - 1, j - 1) + Get(img, i - 1, j + 1) + Get(img, i + 1, j - 1) + Get(img, i + 1, j + 1)) / 4 // 183
    case 16 => (Get(img, i - 1, j) + Get(img, i, j - 1) + Get(img, i, j + 1) + Get(img, i + 1, j)) / 4 // 192
    case 17 => Get(img, i, j) // 195
    case 18 => (Get(img, i - 1, j) + Get(img, i + 1, j)) / 2 // 203
    case 19 => Get(img, i, j) // 206
    case 20 => (Get(img, i, j - 1) + Get(img, i, j + 1)) / 2 // 213
    case 21 => (Get(img, i - 1, w - 2) + Get(img, i + 1, w - 2)) / 2 // 221
    case 22 => (Get(img, i - 1, j) + Get(img, i, j - 1) + Get(img, i + 1, j)) / 3 // 229
    case 23 => Get(img, i, j) // 232
    case 24 => Get(img, i, 0) // 236
    case 25 => (Get(img, i - 1, 0) + Get(img, i, 1) + Get(img, i + 1, 0)) / 3 // 244
    case 26 => (Get(img, i - 1, 1) + Get(img, i + 1, 1)) / 2 // 251
    case 27 => (Get(img, i, j - 1) + Get(img, i, j + 1)) / 2 // 259
    case 28 => Get(img, i, j) // 262
    case 29 => (Get(img, i - 1, j) + Get(img, i + 1, j)) / 2 // 269
    case 30 => Get(img, i, j) // 273
    case 31 => (Get(img, i - 1, j) + Get(img, i, j - 1) + Get(img, i, j + 1) + Get(img, i + 1, j)) / 4 // 282
    case 32 => (Get(img, i - 1, j - 1) + Get(img, i - 1, j + 1) + Get(img, i + 1, j - 1) + Get(img, i + 1, j + 1)) / 4 // 291
    case 33 => Get(img, i, w - 2) // 295
    case 34 => Get(img, i, w - 1) // 298
    case 35 => (Get(img, i - 1, w - 1) + Get(img, i + 1, w - 1)) / 2 // 305
    case 36 => Get(img, h - 2, 0) // 309
    case 37 => Get(img, h - 1, 0) // 310
    case 38 => Get(img, h - 1, 1) // 311
    case 39 => (Get(img, h - 2, j - 1) + Get(img, h - 2, j + 1)) / 2 // 319
    case 40 => (Get(img, h - 2, j) + Get(img, h - 1, j - 1) + Get(img, h - 1, j + 1)) / 3 // 327
    case 41 => Get(img, h - 1, j) // 330
    case 42 => Get(img, h - 2, w - 2) // 334
    case 43 => Get(img, h - 1, 2) // 335
    case 44 => (Get(img, h - 1, j - 1) + Get(img, h - 1, j + 1)) / 2 // 342
    case 45 => Get(img, h - 2, w - 2) // 346
    case 46 => (Get(img, h - 2, w - 1) + Get(img, h - 1, w - 2)) / 2 // 351
    case _ => Get(img, h - 1, w - 1) // 354, k = 47
  }

  /** A mean whose count and sum are known is their quotient. */
  lemma MeanOf(img: Mosaic, i: int, j: int, ds: Offsets, n: nat, total: int)
    requires IsGrid(img) && NeighbourCount(img, i, j, ds) == n > 0 && NeighbourSum(img, i, j, ds) == total
    ensures NeighbourMean(img, i, j, ds) == total / n
  {
  }

  /** Under numpy's slicing rules, each assignment stores its per-cell reading. */
  lemma EvalReading(img: Mosaic, k: nat, i: nat, j: nat)
    requires IsGrid(img) && Dims(|img|, Width(img)) && k < Count
    requires Picks(Entry(k).rows, |img|, i) && Picks(Entry(k).cols, Width(img), j)
    ensures WellFormed(Entry(k), |img|, Width(img))
    ensures Eval(img, |img|, Width(img), Entry(k), i, j) == Reading(img, k, i, j)
  {
    EntryWellFormed(k, |img|, Width(img));
    if k < 3 { EvalReading0(img, k, i, j); }
    else if k < 6 { EvalReading3(img, k, i, j); }
    else if k < 9 { EvalReading6(img, k, i, j); }
    else if k < 12 { EvalReading9(img, k, i, j); }
    else if k < 15 { EvalReading12(img, k, i, j); }
    else if k < 18 { EvalReading15(img, k, i, j); }
    else if k < 21 { EvalReading18(img, k, i, j); }
    else if k < 24 { EvalReading21(img, k, i, j); }
    else if k < 27 { EvalReading24(img, k, i, j); }
    else if k < 30 { EvalReading27(img, k, i, j); }
    else if k < 33 { EvalReading30(img, k, i, j); }
    else if k < 36 { EvalReading33(img, k, i, j); }
    else if k < 39 { EvalReading36(img, k, i, j); }
    else if k < 42 { EvalReading39(img, k, i, j); }
    else if k < 45 { EvalReading42(img, k, i, j); }
    else { EvalReading45(img, k, i, j); }
  }

  lemma EvalReading0(img: Mosaic, k: nat, i: nat, j: nat)
    requires IsGrid(img) && Dims(|img|, Width(img)) && 0 <= k < 3
    requires WellFormed(Entry(k), |img|, Width(img))
    requires Picks(Entry(k).rows, |img|, i) && Picks(Entry(k).cols, Width(img), j)
    ensures Eval(img, |img|, Width(img), Entry(k), i, j) == Reading(img, k, i, j)
  {
    match k {
      case 0 => case 1 =>
      case _ =>
    }
  }

  lemma EvalReading3(img: Mosaic, k: nat, i: nat, j: nat)
    requires IsGrid(img) && Dims(|img|, Width(img)) && 3 <= k < 6
    requires WellFormed(Entry(k), |img|, Width(img))
    requires Picks(Entry(k).rows, |img|, i) && Picks(Entry(k).cols, Width(img), j)
    ensures Eval(img, |img|, Width(img), Entry(k), i, j) == Reading(img, k, i, j)
  {
    match k {
      case 3 => case 4 =>
      case _ =>
    }
  }

  lemma EvalReading6(img: Mosaic, k: nat, i: nat, j: nat)
    requires IsGrid(img) && Dims(|img|, Width(img)) && 6 <= k < 9
    requires WellFormed(Entry(k), |img|, Width(img))
    requires Picks(Entry(k).rows, |img|, i) && Picks(Entry(k).cols, Width(img), j)
    ensures Eval(img, |img|, Width(img), Entry(k), i, j) == Reading(img, k, i, j)
  {
    match k {
      case 6 => case 7 =>
      case _ =>
    }
  }

  lemma EvalReading9(img: Mosaic, k: nat, i: nat, j: nat)
    requires IsGrid(img) && Dims(|img|, Width(img)) && 9 <= k < 12
    requires WellFormed(Entry(k), |img|, Width(img))
    requires Picks(Entry(k).rows, |img|, i) && Picks(Entry(k).cols, Width(img), j)
    ensures Eval(img, |img|, Width(img), Entry(k), i, j) == Reading(img, k, i, j)
  {
    match k {
      case 9 => case 10 =>
      case _ =>
    }
  }

  lemma EvalReading12(img: Mosaic, k: nat, i: nat, j: nat)
    requires IsGrid(img) && Dims(|img|, Width(img)) && 12 <= k < 15
    requires WellFormed(Entry(k), |img|, Width(img))
    requires Picks(Entry(k).rows, |img|, i) && Picks(Entry(k).cols, Width(img), j)
    ensures Eval(img, |img|, Width(img), Entry(k), i, j) == Reading(img, k, i, j)
  {
    match k {
      case 12 => case 13 =>
      case _ =>
    }
  }

  lemma EvalReading15(img: Mosaic, k: nat, i: nat, j: nat)
    requires IsGrid(img) && Dims(|img|, Width(img)) && 15 <= k < 18
    requires WellFormed(Entry(k), |img|, Width(img))
    requires Picks(Entry(k).rows, |img|, i) && Picks(Entry(k).cols, Width(img), j)
    ensures Eval(img, |img|, Width(img), Entry(k), i, j) == Reading(img, k, i, j)
  {
    match k {
      case 15 => case 16 =>
      case _ =>
    }
  }

  lemma EvalReading18(img: Mosaic, k: nat, i: nat, j: nat)
    requires IsGrid(img) && Dims(|img|, Width(img)) && 18 <= k < 21
    requires WellFormed(Entry(k), |img|, Width(img))
    requires Picks(Entry(k).rows, |img|, i) && Picks(Entry(k).cols, Width(img), j)
    ensures Eval(img, |img|, Width(img), Entry(k), i, j) == Reading(img, k, i, j)
  {
    match k {
      case 18 => case 19 =>
      case _ =>
    }
  }

  lemma EvalReading21(img: Mosaic, k: nat, i: nat, j: nat)
    requires IsGrid(img) && Dims(|img|, Width(img)) && 21 <= k < 24
    requires WellFormed(Entry(k), |img|, Width(img))
    requires Picks(Entry(k).rows, |img|, i) && Picks(Entry(k).cols, Width(img), j)
    ensures Eval(img, |img|, Width(img), Entry(k), i, j) == Reading(img, k, i, j)
  {
    match k {
      case 21 => case 22 =>
      case _ =>
    }
  }

  lemma EvalReading24(img: Mosaic, k: nat, i: nat, j: nat)
    requires IsGrid(img) && Dims(|img|, Width(img)) && 24 <= k < 27
    requires WellFormed(Entry(k), |img|, Width(img))
    requires Picks(Entry(k).rows, |img|, i) && Picks(Entry(k).cols, Width(img), j)
    ensures Eval(img, |img|, Width(img), Entry(k), i, j) == Reading(img, k, i, j)
  {
    match k {
      case 24 => case 25 =>
      case _ =>
    }
  }

  lemma EvalReading27(img: Mosaic, k: nat, i: nat, j: nat)
    requires IsGrid(img) && Dims(|img|, Width(img)) && 27 <= k < 30
    requires WellFormed(Entry(k), |img|, Width(img))
    requires Picks(Entry(k).rows, |img|, i) && Picks(Entry(k).cols, Width(img), j)
    ensures Eval(img, |img|, Width(img), Entry(k), i, j) == Reading(img, k, i, j)
  {
    match k {
      case 27 => case 28 =>
      case _ =>
    }
  }

  lemma EvalReading30(img: Mosaic, k: nat, i: nat, j: nat)
    requires IsGrid(img) && Dims(|img|, Width(img)) && 30 <= k < 33
    requires WellFormed(Entry(k), |img|, Width(img))
    requires Picks(Entry(k).rows, |img|, i) && Picks(Entry(k).cols, Width(img), j)
    ensures Eval(img, |img|, Width(img), Entry(k), i, j) == Reading(img, k, i, j)
  {
    match k {
      case 30 => case 31 =>
      case _ =>
    }
  }

  lemma EvalReading33(img: Mosaic, k: nat, i: nat, j: nat)
    requires IsGrid(img) && Dims(|img|, Width(img)) && 33 <= k < 36
    requires WellFormed(Entry(k), |img|, Width(img))
    requires Picks(Entry(k).rows, |img|, i) && Picks(Entry(k).cols, Width(img), j)
    ensures Eval(img, |img|, Width(img), Entry(k), i, j) == Reading(img, k, i, j)
  {
    match k {
      case 33 => case 34 =>
      case _ =>
    }
  }

  lemma EvalReading36(img: Mosaic, k: nat, i: nat, j: nat)
    requires IsGrid(img) && Dims(|img|, Width(img)) && 36 <= k < 39
    requires WellFormed(Entry(k), |img|, Width(img))
    requires Picks(Entry(k).rows, |img|, i) && Picks(Entry(k).cols, Width(img), j)
    ensures Eval(img, |img|, Width(img), Entry(k), i, j) == Reading(img, k, i, j)
  {
    match k {
      case 36 => case 37 =>
      case _ =>
    }
  }

  lemma EvalReading39(img: Mosaic, k: nat, i: nat, j: nat)
    requires IsGrid(img) && Dims(|img|, Width(img)) && 39 <= k < 42
    requires WellFormed(Entry(k), |img|, Width(img))
    requires Picks(Entry(k).rows, |img|, i) && Picks(Entry(k).cols, Width(img), j)
    ensures Eval(img, |img|, Width(img), Entry(k), i, j) == Reading(img, k, i, j)
  {
    match k {
      case 39 => case 40 =>
      case _ =>
    }
  }

  lemma EvalReading42(img: Mosaic, k: nat, i: nat, j: nat)
    requires IsGrid(img) && Dims(|img|, Width(img)) && 42 <= k < 45
    requires WellFormed(Entry(k), |img|, Width(img))
    requires Picks(Entry(k).rows, |img|, i) && Picks(Entry(k).cols, Width(img), j)
    ensures Eval(img, |img|, Width(img), Entry(k), i, j) == Reading(img, k, i, j)
  {
    match k {
      case 42 => case 43 =>
      case _ =>
    }
  }

  lemma EvalReading45(img: Mosaic, k: nat, i: nat, j: nat)
    requires IsGrid(img) && Dims(|img|, Width(img)) && 45 <= k < 48
    requires WellFormed(Entry(k), |img|, Width(img))
    requires Picks(Entry(k).rows, |img|, i) && Picks(Entry(k).cols, Width(img), j)
    ensures Eval(img, |img|, Width(img), Entry(k), i, j) == Reading(img, k, i, j)
  {
    match k {
      case 45 => case 46 =>
      case _ =>
    }
  }

  /** The assignment that owns channel c of a site, 12 * row class + 3 * column class + c,
      writes that channel of that site. */
  lemma OwnerWrites(h: nat, w: nat, i: nat, j: nat, c: nat)
    requires Dims(h, w) && i < h && j < w && c < 3
    ensures Owner(h, w, i, j, c) < Count
    ensures Writes(Entry(Owner(h, w, i, j, c)), h, w, i, j, c)
  {
    var row := RowClass(h, i);
    if row == 0 { OwnerWritesTopRow(h, w, i, j, c); }
    else if row == 1 { OwnerWritesOddRow(h, w, i, j, c); }
    else if row == 2 { OwnerWritesEvenRow(h, w, i, j, c); }
    else { OwnerWritesBottomRow(h, w, i, j, c); }
  }

  lemma OwnerWritesTopRow(h: nat, w: nat, i: nat, j: nat, c: nat)
    requires Dims(h, w) && i < h && j < w && c < 3 && RowClass(h, i) == 0
    ensures Owner(h, w, i, j, c) < Count
    ensures Writes(Entry(Owner(h, w, i, j, c)), h, w, i, j, c)
  {
  }

  lemma OwnerWritesOddRow(h: nat, w: nat, i: nat, j: nat, c: nat)
    requires Dims(h, w) && i < h && j < w && c < 3 && RowClass(h, i) == 1
    ensures Owner(h, w, i, j, c) < Count
    ensures Writes(Entry(Owner(h, w, i, j, c)), h, w, i, j, c)
  {
  }

  lemma OwnerWritesEvenRow(h: nat, w: nat, i: nat, j: nat, c: nat)
    requires Dims(h, w) && i < h && j < w && c < 3 && RowClass(h, i) == 2
    ensures Owner(h, w, i, j, c) < Count
    ensures Writes(Entry(Owner(h, w, i, j, c)), h, w, i, j, c)
  {
  }

  lemma OwnerWritesBottomRow(h: nat, w: nat, i: nat, j: nat, c: nat)
    requires Dims(h, w) && i < h && j < w && c < 3 && RowClass(h, i) == 3
    ensures Owner(h, w, i, j, c) < Count
    ensures Writes(Entry(Owner(h, w, i, j, c)), h, w, i, j, c)
  {
  }

  /** No assignment after the owning one writes that channel of that site again. */
  lemma LaterMiss(h: nat, w: nat, i: nat, j: nat, c: nat)
    requires Dims(h, w) && i < h && j < w && c < 3
    ensures forall m :: Owner(h, w, i, j, c) < m < Count ==> !Writes(Entry(m), h, w, i, j, c)
  {
    var row := RowClass(h, i);
    forall m | Owner(h, w, i, j, c) < m < Count ensures !Writes(Entry(m), h, w, i, j, c) {
      if row == 0 { LaterMissTopRow(h, w, i, j, c, m); }
      else if row == 1 { LaterMissOddRow(h, w, i, j, c, m); }
      else if row == 2 { LaterMissEvenRow(h, w, i, j, c, m); }
      else { LaterMissBottomRow(h, w, i, j, c, m); }
    }
  }

  lemma LaterMissTopRow(h: nat, w: nat, i: nat, j: nat, c: nat, m: nat)
    requires Dims(h, w) && i < h && j < w && c < 3 && RowClass(h, i) == 0
    requires Owner(h, w, i, j, c) < m < Count
    ensures !Writes(Entry(m), h, w, i, j, c)
  {
  }

  lemma LaterMissOddRow(h: nat, w: nat, i: nat, j: nat, c: nat, m: nat)
    requires Dims(h, w) && i < h && j < w && c < 3 && RowClass(h, i) == 1
    requires Owner(h, w, i, j, c) < m < Count
    ensures !Writes(Entry(m), h, w, i, j, c)
  {
  }

  lemma LaterMissEvenRow(h: nat, w: nat, i: nat, j: nat, c: nat, m: nat)
    requires Dims(h, w) && i < h && j < w && c < 3 && RowClass(h, i) == 2
    requires Owner(h, w, i, j, c) < m < Count
    ensures !Writes(Entry(m), h, w, i, j, c)
  {
  }

  lemma LaterMissBottomRow(h: nat, w: nat, i: nat, j: nat, c: nat, m: nat)
    requires Dims(h, w) && i < h && j < w && c < 3 && RowClass(h, i) == 3
    requires Owner(h, w, i, j, c) < m < Count
    ensures !Writes(Entry(m), h, w, i, j, c)
  {
  }

  /** Site by site: what the routine stores at each kind of site is what the three
      assignments owning it (12 * row class + 3 * column class + c) read there. */
  lemma SiteReading(img: Mosaic, i: nat, j: nat, c: nat)
    requires IsGrid(img) && Dims(|img|, Width(img)) && Inside(img, i, j) && c < 3
    ensures Owner(|img|, Width(img), i, j, c) < Count
    ensures Interpolated(img, i, j).Channel(c) == Reading(img, Owner(|img|, Width(img), i, j, c), i, j)
  {
    var row := RowClass(|img|, i);
    if row == 0 { TopRowReading(img, i, j, c); }
    else if row == 1 { OddRowReading(img, i, j, c); }
    else if row == 2 { EvenRowReading(img, i, j, c); }
    else { BottomRowReading(img, i, j, c); }
  }

  lemma TopRowReading(img: Mosaic, i: nat, j: nat, c: nat)
    requires IsGrid(img) && Dims(|img|, Width(img)) && Inside(img, i, j) && c < 3
    requires RowClass(|img|, i) == 0
    ensures Owner(|img|, Width(img), i, j, c) < Count
    ensures Interpolated(img, i, j).Channel(c) == Reading(img, Owner(|img|, Width(img), i, j, c), i, j)
  {
    var col := ColClass(Width(img), j);
    if col == 0 { TopLeftSite(img, i, j); }
    else if col == 1 { TopGreenSite(img, i, j); }
    else if col == 2 { TopRedSite(img, i, j); }
    else { TopRightSite(img, i, j); }
  }

  lemma OddRowReading(img: Mosaic, i: nat, j: nat, c: nat)
    requires IsGrid(img) && Dims(|img|, Width(img)) && Inside(img, i, j) && c < 3
    requires RowClass(|img|, i) == 1
    ensures Owner(|img|, Width(img), i, j, c) < Count
    ensures Interpolated(img, i, j).Channel(c) == Reading(img, Owner(|img|, Width(img), i, j, c), i, j)
  {
    var col := ColClass(Width(img), j);
    if col == 0 { LeftGreenSite(img, i, j); }
    else if col == 1 { InnerBlueSite(img, i, j); }
    else if col == 2 { InnerGreenOnBlueSite(img, i, j); }
    else { RightBlueSite(img, i, j); }
  }

  lemma EvenRowReading(img: Mosaic, i: nat, j: nat, c: nat)
    requires IsGrid(img) && Dims(|img|, Width(img)) && Inside(img, i, j) && c < 3
    requires RowClass(|img|, i) == 2
    ensures Owner(|img|, Width(img), i, j, c) < Count
    ensures Interpolated(img, i, j).Channel(c) == Reading(img, Owner(|img|, Width(img), i, j, c), i, j)
  {
    var col := ColClass(Width(img), j);
    if col == 0 { LeftRedSite(img, i, j); }
    else if col == 1 { InnerGreenOnRedSite(img, i, j); }
    else if col == 2 { InnerRedSite(img, i, j); }
    else { RightGreenSite(img, i, j); }
  }

  lemma BottomRowReading(img: Mosaic, i: nat, j: nat, c: nat)
    requires IsGrid(img) && Dims(|img|, Width(img)) && Inside(img, i, j) && c < 3
    requires RowClass(|img|, i) == 3
    ensures Owner(|img|, Width(img), i, j, c) < Count
    ensures Interpolated(img, i, j).Channel(c) == Reading(img, Owner(|img|, Width(img), i, j, c), i, j)
  {
    var col := ColClass(Width(img), j);
    if col == 0 { BottomLeftSite(img, i, j); }
    else if col == 1 { BottomBlueSite(img, i, j); }
    else if col == 2 { BottomGreenSite(img, i, j); }
    else { BottomRightSite(img, i, j); }
  }

  /** The top-left corner (red). */
  lemma TopLeftSite(img: Mosaic, i: nat, j: nat)
    requires IsGrid(img) && Dims(|img|, Width(img)) && Inside(img, i, j)
    requires i == 0 && j == 0
    ensures Interpolated(img, i, j) == Rgb(Reading(img, 0, i, j), Reading(img, 1, i, j), Reading(img, 2, i, j))
  {
  }

  /** A green site of the top row. */
  lemma TopGreenSite(img: Mosaic, i: nat, j: nat)
    requires IsGrid(img) && Dims(|img|, Width(img)) && Inside(img, i, j)
    requires i == 0 && j % 2 == 1 && j < Width(img) - 1
    ensures Interpolated(img, i, j) == Rgb(Reading(img, 3, i, j), Reading(img, 4, i, j), Reading(img, 5, i, j))
  {
  }

  /** A red site of the top row, inner column. */
  lemma TopRedSite(img: Mosaic, i: nat, j: nat)
    requires IsGrid(img) && Dims(|img|, Width(img)) && Inside(img, i, j)
    requires i == 0 && j % 2 == 0 && 0 < j
    ensures Interpolated(img, i, j) == Rgb(Reading(img, 6, i, j), Reading(img, 7, i, j), Reading(img, 8, i, j))
  {
    assert i % 2 == 0 && PhaseAt(i, j) == Red && !BottomRowGreen(img, i, j);
    assert NeighbourCount(img, i, j, Orthogonal) == 3 && NeighbourCount(img, i, j, Diagonal) == 2;
  }

  /** The top-right corner (green). */
  lemma TopRightSite(img: Mosaic, i: nat, j: nat)
    requires IsGrid(img) && Dims(|img|, Width(img)) && Inside(img, i, j)
    requires i == 0 && j == Width(img) - 1
    ensures Interpolated(img, i, j) == Rgb(Reading(img, 9, i, j), Reading(img, 10, i, j), Reading(img, 11, i, j))
  {
  }

  /** A green site of the left column, odd row. */
  lemma LeftGreenSite(img: Mosaic, i: nat, j: nat)
    requires IsGrid(img) && Dims(|img|, Width(img)) && Inside(img, i, j)
    requires i % 2 == 1 && i < |img| - 1 && j == 0
    ensures Interpolated(img, i, j) == Rgb(Reading(img, 12, i, j), Reading(img, 13, i, j), Reading(img, 14, i, j))
  {
  }

  /** An inner blue site. */
  lemma InnerBlueSite(img: Mosaic, i: nat, j: nat)
    requires IsGrid(img) && Dims(|img|, Width(img)) && Inside(img, i, j)
    requires i % 2 == 1 && i < |img| - 1 && j % 2 == 1 && j < Width(img) - 1
    ensures Interpolated(img, i, j) == Rgb(Reading(img, 15, i, j), Reading(img, 16, i, j), Reading(img, 17, i, j))
  {
  }

  /** An inner green site on a blue row. */
  lemma InnerGreenOnBlueSite(img: Mosaic, i: nat, j: nat)
    requires IsGrid(img) && Dims(|img|, Width(img)) && Inside(img, i, j)
    requires i % 2 == 1 && i < |img| - 1 && j % 2 == 0 && 0 < j
    ensures Interpolated(img, i, j) == Rgb(Reading(img, 18, i, j), Reading(img, 19, i, j), Reading(img, 20, i, j))
  {
  }

  /** A blue site of the right column. */
  lemma RightBlueSite(img: Mosaic, i: nat, j: nat)
    requires IsGrid(img) && Dims(|img|, Width(img)) && Inside(img, i, j)
    requires i % 2 == 1 && i < |img| - 1 && j == Width(img) - 1
    ensures Interpolated(img, i, j) == Rgb(Reading(img, 21, i, j), Reading(img, 22, i, j), Reading(img, 23, i, j))
  {
    assert PhaseAt(i, j) == Blue && !BottomRowGreen(img, i, j);
    assert NeighbourCount(img, i, j, Diagonal) == 2 && NeighbourCount(img, i, j, Orthogonal) == 3;
  }

  /** A red site of the left column, inner even row. */
  lemma LeftRedSite(img: Mosaic, i: nat, j: nat)
    requires IsGrid(img) && Dims(|img|, Width(img)) && Inside(img, i, j)
    requires i % 2 == 0 && 0 < i && j == 0
    ensures Interpolated(img, i, j) == Rgb(Reading(img, 24, i, j), Reading(img, 25, i, j), Reading(img, 26, i, j))
  {
  }

  /** An inner green site on a red row. */
  lemma InnerGreenOnRedSite(img: Mosaic, i: nat, j: nat)
    requires IsGrid(img) && Dims(|img|, Width(img)) && Inside(img, i, j)
    requires i % 2 == 0 && 0 < i && j % 2 == 1 && j < Width(img) - 1
    ensures Interpolated(img, i, j) == Rgb(Reading(img, 27, i, j), Reading(img, 28, i, j), Reading(img, 29, i, j))
  {
  }

  /** An inner red site. */
  lemma InnerRedSite(img: Mosaic, i: nat, j: nat)
    requires IsGrid(img) && Dims(|img|, Width(img)) && Inside(img, i, j)
    requires i % 2 == 0 && 0 < i && j % 2 == 0 && 0 < j
    ensures Interpolated(img, i, j) == Rgb(Reading(img, 30, i, j), Reading(img, 31, i, j), Reading(img, 32, i, j))
  {
  }

  /** A green site of the right column, inner even row. */
  lemma RightGreenSite(img: Mosaic, i: nat, j: nat)
    requires IsGrid(img) && Dims(|img|, Width(img)) && Inside(img, i, j)
    requires i % 2 == 0 && 0 < i && j == Width(img) - 1
    ensures Interpolated(img, i, j) == Rgb(Reading(img, 33, i, j), Reading(img, 34, i, j), Reading(img, 35, i, j))
  {
  }

  /** The bottom-left corner (green). */
  lemma BottomLeftSite(img: Mosaic, i: nat, j: nat)
    requires IsGrid(img) && Dims(|img|, Width(img)) && Inside(img, i, j)
    requires i == |img| - 1 && j == 0
    ensures Interpolated(img, i, j) == Rgb(Reading(img, 36, i, j), Reading(img, 37, i, j), Reading(img, 38, i, j))
  {
    assert i % 2 == 1 && PhaseAt(i, j) == GreenOnBlue && !BottomRowGreen(img, i, j);
    assert NeighbourCount(img, i, j, Vertical) == 1 && NeighbourCount(img, i, j, Horizontal) == 1;
  }

  /** A blue site of the bottom row. */
  lemma BottomBlueSite(img: Mosaic, i: nat, j: nat)
    requires IsGrid(img) && Dims(|img|, Width(img)) && Inside(img, i, j)
    requires i == |img| - 1 && j % 2 == 1 && j < Width(img) - 1
    ensures Interpolated(img, i, j) == Rgb(Reading(img, 39, i, j), Reading(img, 40, i, j), Reading(img, 41, i, j))
  {
    BottomBlueValues(img, i, j);
    BottomBlueReadings(img, i, j);
  }

  lemma BottomBlueValues(img: Mosaic, i: nat, j: nat)
    requires IsGrid(img) && Dims(|img|, Width(img)) && Inside(img, i, j)
    requires i == |img| - 1 && j % 2 == 1 && j < Width(img) - 1
    ensures Interpolated(img, i, j) ==
      Rgb((Get(img, i - 1, j - 1) + Get(img, i - 1, j + 1)) / 2,
          (Get(img, i - 1, j) + Get(img, i, j - 1) + Get(img, i, j + 1)) / 3,
          img[i][j])
  {
    assert i % 2 == 1 && PhaseAt(i, j) == Blue && !BottomRowGreen(img, i, j);
    MeanOf(img, i, j, Diagonal, 2, Get(img, i - 1, j - 1) + Get(img, i - 1, j + 1));
    MeanOf(img, i, j, Orthogonal, 3, Get(img, i - 1, j) + Get(img, i, j - 1) + Get(img, i, j + 1));
  }

  lemma BottomBlueReadings(img: Mosaic, i: nat, j: nat)
    requires IsGrid(img) && Dims(|img|, Width(img)) && Inside(img, i, j)
    requires i == |img| - 1 && j % 2 == 1 && j < Width(img) - 1
    ensures Reading(img, 39, i, j) == (Get(img, i - 1, j - 1) + Get(img, i - 1, j + 1)) / 2
    ensures Reading(img, 40, i, j) == (Get(img, i - 1, j) + Get(img, i, j - 1) + Get(img, i, j + 1)) / 3
    ensures Reading(img, 41, i, j) == img[i][j]
  {
  }

  /** A green site of the bottom row, inner column. */
  lemma BottomGreenSite(img: Mosaic, i: nat, j: nat)
    requires IsGrid(img) && Dims(|img|, Width(img)) && Inside(img, i, j)
    requires i == |img| - 1 && j % 2 == 0 && 0 < j
    ensures Interpolated(img, i, j) == Rgb(Reading(img, 42, i, j), Reading(img, 43, i, j), Reading(img, 44, i, j))
  {
    BottomGreenValues(img, i, j);
    BottomGreenReadings(img, i, j);
  }

  lemma BottomGreenValues(img: Mosaic, i: nat, j: nat)
    requires IsGrid(img) && Dims(|img|, Width(img)) && Inside(img, i, j)
    requires i == |img| - 1 && j % 2 == 0 && 0 < j
    ensures Interpolated(img, i, j) ==
      Rgb(img[|img| - 2][Width(img) - 2], img[|img| - 1][2], (Get(img, i, j - 1) + Get(img, i, j + 1)) / 2)
  {
    assert i % 2 == 1 && PhaseAt(i, j) == GreenOnBlue && BottomRowGreen(img, i, j);
    MeanOf(img, i, j, Horizontal, 2, Get(img, i, j - 1) + Get(img, i, j + 1));
  }

  lemma BottomGreenReadings(img: Mosaic, i: nat, j: nat)
    requires IsGrid(img) && Dims(|img|, Width(img)) && Inside(img, i, j)
    requires i == |img| - 1 && j % 2 == 0 && 0 < j
    ensures Reading(img, 42, i, j) == img[|img| - 2][Width(img) - 2]
    ensures Reading(img, 43, i, j) == img[|img| - 1][2]
    ensures Reading(img, 44, i, j) == (Get(img, i, j - 1) + Get(img, i, j + 1)) / 2
  {
  }

  /** The bottom-right corner (blue). */
  lemma BottomRightSite(img: Mosaic, i: nat, j: nat)
    requires IsGrid(img) && Dims(|img|, Width(img)) && Inside(img, i, j)
    requires i == |img| - 1 && j == Width(img) - 1
    ensures Interpolated(img, i, j) == Rgb(Reading(img, 45, i, j), Reading(img, 46, i, j), Reading(img, 47, i, j))
  {
    BottomRightValues(img, i, j);
    BottomRightReadings(img, i, j);
  }

  lemma BottomRightValues(img: Mosaic, i: nat, j: nat)
    requires IsGrid(img) && Dims(|img|, Width(img)) && Inside(img, i, j)
    requires i == |img| - 1 && j == Width(img) - 1
    ensures Interpolated(img, i, j) ==
      Rgb(Get(img, i - 1, j - 1), (Get(img, i - 1, j) + Get(img, i, j - 1)) / 2, img[i][j])
  {
    assert i % 2 == 1 && PhaseAt(i, j) == Blue && !BottomRowGreen(img, i, j);
    MeanOf(img, i, j, Diagonal, 1, Get(img, i - 1, j - 1));
    MeanOf(img, i, j, Orthogonal, 2, Get(img, i - 1, j) + Get(img, i, j - 1));
  }

  lemma BottomRightReadings(img: Mosaic, i: nat, j: nat)
    requires IsGrid(img) && Dims(|img|, Width(img)) && Inside(img, i, j)
    requires i == |img| - 1 && j == Width(img) - 1
    ensures Reading(img, 45, i, j) == Get(img, i - 1, j - 1)
    ensures Reading(img, 46, i, j) == (Get(img, i - 1, j) + Get(img, i, j - 1)) / 2
    ensures Reading(img, 47, i, j) == img[i][j]
  {
  }

  /** The routine computes the per-pixel rule: after all 48 assignments have run, channel c
      of every site holds `Interpolated`. */
  lemma ProgramMeetsSpec(img: Mosaic, i: nat, j: nat, c: nat)
    requires IsGrid(img) && Dims(|img|, Width(img)) && Inside(img, i, j) && c < 3
    ensures AllWellFormed(Program(), |img|, Width(img))
    ensures Painted(img, |img|, Width(img), Program(), i, j, c) == Interpolated(img, i, j).Channel(c)
  {
    var h, w := |img|, Width(img);
    var prog := Program();
    ProgramWellFormed(h, w);
    var k := Owner(h, w, i, j, c);
    OwnerWrites(h, w, i, j, c);
    LaterMiss(h, w, i, j, c);
    EvalReading(img, k, i, j);
    SiteReading(img, i, j, c);
    LastWriteWins(img, h, w, prog, k, i, j, c);
  }

  /** `interpolation_rggb` on a canonical RGGB mosaic: a zero H x W x 3 buffer, then the 48
      slice assignments in order. */
  method InterpolationRggb(img: Mosaic) returns (res: array3<int>)
    requires IsGrid(img) && Dims(|img|, Width(img))
    ensures fresh(res)
    ensures res.Length0 == |img| && res.Length1 == Width(img) && res.Length2 == 3
    ensures forall i, j, c :: 0 <= i < res.Length0 && 0 <= j < res.Length1 && 0 <= c < 3 ==>
      res[i, j, c] == Interpolated(img, i, j).Channel(c)
  {
    var h, w := |img|, Width(img);
    res := new int[h, w, 3]((_, _, _) => 0);
    ProgramWellFormed(h, w);
    Run(res, img, Program());
    forall i, j, c | 0 <= i < h && 0 <= j < w && 0 <= c < 3
      ensures res[i, j, c] == Interpolated(img, i, j).Channel(c)
    {
      ProgramMeetsSpec(img, i, j, c);
    }
  }

  /** The whole image the routine produces: `Interpolated` at every site. */
  function Interpolate(img: Mosaic): (out: RgbImage)
    requires IsGrid(img) && Dims(|img|, Width(img))
    ensures HasShape(out, |img|, Width(img))
  {
    seq(|img|, i requires 0 <= i < |img| => seq(Width(img), j requires 0 <= j < Width(img) => Interpolated(img, i, j)))
  }
}
