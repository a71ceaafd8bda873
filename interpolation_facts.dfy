/** What the per-pixel rule of `interpolation_rggb` guarantees: each site keeps its own
    sample, every stored value is a byte lying between the neighbours it averages, interior
    sites average full neighbourhoods, and how far the bottom row strays from the bilinear
    rule. */
module InterpolationFacts {
  import opened Images
  import opened Interpolation

  /** Every site keeps its own sample in the channel it records, except the green sites of
      the bottom row from column 2 on, whose green is copied from column 2. */
  lemma OwnSampleKept(img: Mosaic, i: nat, j: nat)
    requires IsGrid(img) && Dims(|img|, Width(img)) && Inside(img, i, j)
    ensures !BottomRowGreen(img, i, j) ==>
      Interpolated(img, i, j).Channel(ChannelOf(PhaseAt(i, j))) == img[i][j]
    ensures BottomRowGreen(img, i, j) ==> Interpolated(img, i, j).g == img[i][2]
  {
  }

  /** The site (i, j), if it lies in the grid, holds a sample in lo .. hi. */
  predicate WithinAt(img: Mosaic, i: int, j: int, lo: int, hi: int)
    requires IsGrid(img)
  {
    Inside(img, i, j) ==> lo <= img[i][j] <= hi
  }

  /** Every in-grid neighbour at the offsets ds holds a sample in lo .. hi. */
  predicate NeighboursWithin(img: Mosaic, i: int, j: int, ds: Offsets, lo: int, hi: int)
    requires IsGrid(img)
  {
    match ds
    case Pair(a, b) => WithinAt(img, i + a.0, j + a.1, lo, hi) && WithinAt(img, i + b.0, j + b.1, lo, hi)
    case Quad(a, b, c, d) =>
      WithinAt(img, i + a.0, j + a.1, lo, hi) && WithinAt(img, i + b.0, j + b.1, lo, hi)
      && WithinAt(img, i + c.0, j + c.1, lo, hi) && WithinAt(img, i + d.0, j + d.1, lo, hi)
  }

  lemma GetWithin(img: Mosaic, i: int, j: int, lo: int, hi: int)
    requires IsGrid(img) && WithinAt(img, i, j, lo, hi)
    ensures Present(img, i, j) * lo <= Get(img, i, j) <= Present(img, i, j) * hi
  {
  }

  /** The sum of the in-grid neighbours lies between count * lo and count * hi. */
  lemma SumWithin(img: Mosaic, i: int, j: int, ds: Offsets, lo: int, hi: int)
    requires IsGrid(img) && NeighboursWithin(img, i, j, ds, lo, hi)
    ensures NeighbourCount(img, i, j, ds) * lo <= NeighbourSum(img, i, j, ds)
                                               <= NeighbourCount(img, i, j, ds) * hi
  {
    match ds
    case Pair(a, b) => PairWithin(img, i, j, a, b, lo, hi);
    case Quad(a, b, c, d) => QuadWithin(img, i, j, a, b, c, d, lo, hi);
  }

  lemma PairWithin(img: Mosaic, i: int, j: int, a: (int, int), b: (int, int), lo: int, hi: int)
    requires IsGrid(img) && WithinAt(img, i + a.0, j + a.1, lo, hi) && WithinAt(img, i + b.0, j + b.1, lo, hi)
    ensures NeighbourCount(img, i, j, Pair(a, b)) * lo <= NeighbourSum(img, i, j, Pair(a, b))
                                                     <= NeighbourCount(img, i, j, Pair(a, b)) * hi
  {
    GetWithin(img, i + a.0, j + a.1, lo, hi);
    GetWithin(img, i + b.0, j + b.1, lo, hi);
    SumOfBounded(Present(img, i + a.0, j + a.1), Present(img, i + b.0, j + b.1), 0, 0,
                 Get(img, i + a.0, j + a.1), Get(img, i + b.0, j + b.1), 0, 0,
                 NeighbourCount(img, i, j, Pair(a, b)), NeighbourSum(img, i, j, Pair(a, b)), lo, hi);
  }

  lemma QuadWithin(img: Mosaic, i: int, j: int, a: (int, int), b: (int, int), c: (int, int), d: (int, int),
                   lo: int, hi: int)
    requires IsGrid(img) && WithinAt(img, i + a.0, j + a.1, lo, hi) && WithinAt(img, i + b.0, j + b.1, lo, hi)
    requires WithinAt(img, i + c.0, j + c.1, lo, hi) && WithinAt(img, i + d.0, j + d.1, lo, hi)
    ensures NeighbourCount(img, i, j, Quad(a, b, c, d)) * lo <= NeighbourSum(img, i, j, Quad(a, b, c, d))
                                                           <= NeighbourCount(img, i, j, Quad(a, b, c, d)) * hi
  {
    GetWithin(img, i + a.0, j + a.1, lo, hi);
    GetWithin(img, i + b.0, j + b.1, lo, hi);
    GetWithin(img, i + c.0, j + c.1, lo, hi);
    GetWithin(img, i + d.0, j + d.1, lo, hi);
    SumOfBounded(Present(img, i + a.0, j + a.1), Present(img, i + b.0, j + b.1),
                 Present(img, i + c.0, j + c.1), Present(img, i + d.0, j + d.1),
                 Get(img, i + a.0, j + a.1), Get(img, i + b.0, j + b.1),
                 Get(img, i + c.0, j + c.1), Get(img, i + d.0, j + d.1),
                 NeighbourCount(img, i, j, Quad(a, b, c, d)), NeighbourSum(img, i, j, Quad(a, b, c, d)), lo, hi);
  }

  /** Four values each between its weight times lo and its weight times hi sum to a value
      between the total weight times lo and the total weight times hi. */
  lemma SumOfBounded(pa: int, pb: int, pc: int, pd: int, ga: int, gb: int, gc: int, gd: int,
                     n: int, s: int, lo: int, hi: int)
    requires pa * lo <= ga <= pa * hi && pb * lo <= gb <= pb * hi
    requires pc * lo <= gc <= pc * hi && pd * lo <= gd <= pd * hi
    requires n == pa + pb + pc + pd && s == ga + gb + gc + gd
    ensures n * lo <= s <= n * hi
  {
    Distribute(pa, pb, pc, pd, lo);
    Distribute(pa, pb, pc, pd, hi);
  }

  lemma Distribute(a: int, b: int, c: int, d: int, x: int)
    ensures (a + b + c + d) * x == a * x + b * x + c * x + d * x
  {
  }

  /** A truncated quotient of a sum of n values in lo .. hi is again in lo .. hi. */
  lemma DivWithin(s: int, n: int, lo: int, hi: int)
    requires n > 0 && n * lo <= s <= n * hi
    ensures lo <= s / n <= hi
  {
    var q, r := s / n, s % n;
    assert s == n * q + r && 0 <= r < n;
    assert n * (lo - q - 1) == n * lo - n * q - n;
    PositiveFactor(n, lo - q - 1);
    assert n * (q - hi) == n * q - n * hi;
    PositiveFactor(n, q - hi);
  }

  /** A product with a positive factor has the sign of the other factor. */
  lemma PositiveFactor(n: int, x: int)
    requires n > 0
    ensures n * x < 0 ==> x < 0
    ensures n * x <= 0 ==> x <= 0
  {
  }

  /** The truncated mean of the in-grid neighbours lies between the smallest and the largest
      of them. */
  lemma MeanWithin(img: Mosaic, i: int, j: int, ds: Offsets, lo: int, hi: int)
    requires IsGrid(img) && NeighbourCount(img, i, j, ds) > 0
    requires NeighboursWithin(img, i, j, ds, lo, hi)
    ensures lo <= NeighbourMean(img, i, j, ds) <= hi
  {
    SumWithin(img, i, j, ds, lo, hi);
    DivWithin(NeighbourSum(img, i, j, ds), NeighbourCount(img, i, j, ds), lo, hi);
  }

  /** Whatever colour the site records, every channel of the bilinear rule is a byte. */
  lemma BilinearIsByte(img: Mosaic, i: nat, j: nat, ph: Phase, c: nat)
    requires IsGrid(img) && Dims(|img|, Width(img)) && Inside(img, i, j) && c < 3
    ensures 0 <= Bilinear(img, i, j, ph).Channel(c) < 256
  {
    forall ds: Offsets ensures NeighboursWithin(img, i, j, ds, 0, 255) {
    }
    match ph
    case Red =>
      MeanWithin(img, i, j, Orthogonal, 0, 255);
      MeanWithin(img, i, j, Diagonal, 0, 255);
    case GreenOnRed =>
      MeanWithin(img, i, j, Horizontal, 0, 255);
      MeanWithin(img, i, j, Vertical, 0, 255);
    case GreenOnBlue =>
      MeanWithin(img, i, j, Vertical, 0, 255);
      MeanWithin(img, i, j, Horizontal, 0, 255);
    case Blue =>
      MeanWithin(img, i, j, Diagonal, 0, 255);
      MeanWithin(img, i, j, Orthogonal, 0, 255);
  }

  /** Every channel the routine stores is a byte, so the final `np.uint8` conversion keeps
      each value as it is. */
  lemma InterpolatedIsByte(img: Mosaic, i: nat, j: nat, c: nat)
    requires IsGrid(img) && Dims(|img|, Width(img)) && Inside(img, i, j) && c < 3
    ensures 0 <= Interpolated(img, i, j).Channel(c) < 256
  {
    BilinearIsByte(img, i, j, PhaseAt(i, j), c);
  }

  /** At a site away from every border all neighbours exist, so each mean divides by the
      full count: 4 for the orthogonal and the diagonal neighbours, 2 for a pair. */
  lemma InteriorFullNeighbourhood(img: Mosaic, i: nat, j: nat)
    requires IsGrid(img) && 0 < i < |img| - 1 && 0 < j < Width(img) - 1
    ensures NeighbourCount(img, i, j, Orthogonal) == 4 && NeighbourCount(img, i, j, Diagonal) == 4
    ensures NeighbourCount(img, i, j, Horizontal) == 2 && NeighbourCount(img, i, j, Vertical) == 2
  {
  }

  /** At the top-left corner only two green neighbours and one blue neighbour exist, and the
      means divide by those counts. */
  lemma TopLeftCorner(img: Mosaic)
    requires IsGrid(img) && Dims(|img|, Width(img))
    ensures Interpolated(img, 0, 0) == Rgb(img[0][0], (img[0][1] as int + img[1][0]) / 2, img[1][1])
  {
  }

  /** The routine agrees with the bilinear rule at a site exactly when the site is not a
      bottom-row green site from column 2 on, or when the two scalars lines 334-335 store
      there happen to equal the site's own red neighbour above and its own sample. */
  lemma MatchesBilinear(img: Mosaic, i: nat, j: nat)
    requires IsGrid(img) && Dims(|img|, Width(img)) && Inside(img, i, j)
    ensures Interpolated(img, i, j) == Intended(img, i, j) <==>
      (!BottomRowGreen(img, i, j)
       || (img[|img| - 2][Width(img) - 2] == img[i - 1][j] && img[i][2] == img[i][j]))
  {
    if BottomRowGreen(img, i, j) {
      assert Intended(img, i, j).r == img[i - 1][j];
      assert Intended(img, i, j).g == img[i][j];
    }
  }

  /** The 4 x 4 mosaic 10, 20, ..., 160 (row by row): the top-left output pixel is
      (10, 35, 60). */
  lemma CornerExample()
    ensures Interpolated(Example(), 0, 0) == Rgb(10, 35, 60)
  {
    TopLeftCorner(Example());
  }

  function Example(): (img: Mosaic)
    ensures IsGrid(img) && Dims(|img|, Width(img))
  {
    [[10, 20, 30, 40], [50, 60, 70, 80], [90, 100, 110, 120], [130, 140, 150, 160]]
  }
}
