/** `bayer_to_rgb` (bayer.py:3-75): the entry point. It accepts a mosaic in one of the four
    Bayer layouts, turns it into the RGGB layout by reversing its columns and/or rows, hands it
    to `decimation_rggb` or `interpolation_rggb`, and reverses the result back. Any other
    layout name yields Python's `None`. */
module Bayer {
  import opened Images
  import opened Decimation
  import opened Interpolation
  import opened InterpolationFacts
  import opened BottomRowFix

  datatype Option<T> = None | Some(value: T)

  /** The four layouts, named by the colours of their 2 x 2 tile read row by row. */
  datatype Pattern = RGGB | BGGR | GRBG | GBRG

  function Name(p: Pattern): (s: string)
    ensures |s| == 4
  {
    match p
    case RGGB => "RGGB"
    case BGGR => "BGGR"
    case GRBG => "GRBG"
    case GBRG => "GBRG"
  }

  /** The colour layout p puts at site (i, j): letter 2 * (i % 2) + j % 2 of its name; a green
      is told apart by the other colour on its row of the tile. */
  function PatternPhase(p: Pattern, i: nat, j: nat): Phase {
    var tile, row := Name(p), 2 * (i % 2);
    var letter := tile[row + j % 2];
    if letter == 'R' then Red
    else if letter == 'B' then Blue
    else if tile[row] == 'R' || tile[row + 1] == 'R' then GreenOnRed
    else GreenOnBlue
  }

  /** What the chosen routine needs of the mosaic: even dimensions for decimation, and for
      interpolation also at least 2 rows and 4 columns. */
  predicate Supported(img: Mosaic, interpolation: bool) {
    if interpolation then IsGrid(img) && Dims(|img|, Width(img)) else EvenDims(img)
  }

  /** The size of the result: the mosaic's, or half of it in each direction. */
  function OutHeight(img: Mosaic, interpolation: bool): nat {
    if interpolation then |img| else |img| / 2
  }

  function OutWidth(img: Mosaic, interpolation: bool): nat {
    if interpolation then Width(img) else Width(img) / 2
  }

  lemma FlipsKeepSupport(img: Mosaic, interpolation: bool)
    requires Supported(img, interpolation)
    ensures Supported(FlipLR(img), interpolation) && Supported(FlipUD(img), interpolation)
    ensures Supported(FlipUD(FlipLR(img)), interpolation)
    ensures |FlipLR(img)| == |FlipUD(img)| == |FlipUD(FlipLR(img))| == |img|
    ensures Width(FlipLR(img)) == Width(FlipUD(img)) == Width(FlipUD(FlipLR(img))) == Width(img)
  {
    FlipLRShape(img);
    FlipUDShape(img);
    FlipUDShape(FlipLR(img));
  }

  lemma FlipsKeepShape<T>(g: seq<seq<T>>, h: nat, w: nat)
    requires HasShape(g, h, w)
    ensures HasShape(FlipLR(g), h, w) && HasShape(FlipUD(g), h, w)
    ensures HasShape(FlipLR(FlipUD(g)), h, w)
  {
  }

  /** The RGGB routine the flag selects: decimation, or interpolation — the routine as written,
      or, when `corrected` holds, the one with lines 334-335 repaired (module `BottomRowFix`). */
  function Reconstruct(img: Mosaic, interpolation: bool, corrected: bool): (out: RgbImage)
    requires Supported(img, interpolation)
    ensures HasShape(out, OutHeight(img, interpolation), OutWidth(img, interpolation))
  {
    if !interpolation then Decimate(img)
    else if corrected then CorrectedInterpolate(img)
    else Interpolate(img)
  }

  /** The if-chain of `bayer_to_rgb` over the layout names, with the RGGB routine chosen by
      `Reconstruct`: a result exactly for the four layout names, of the mosaic's size when
      interpolating and of half its size when decimating. */
  function Dispatch(img: Mosaic, pattern: string, interpolation: bool, corrected: bool): (out: Option<RgbImage>)
    requires forall p :: Name(p) == pattern ==> Supported(img, interpolation)
    ensures out.Some? <==> exists p :: Name(p) == pattern
    ensures out.Some? ==> HasShape(out.value, OutHeight(img, interpolation), OutWidth(img, interpolation))
  {
    if pattern == "RGGB" then
      assert Name(RGGB) == pattern;
      Some(Reconstruct(img, interpolation, corrected))
    else if pattern == "BGGR" then
      assert Name(BGGR) == pattern;
      FlipsKeepSupport(img, interpolation);
      var result := Reconstruct(FlipUD(FlipLR(img)), interpolation, corrected);
      FlipsKeepShape(result, OutHeight(img, interpolation), OutWidth(img, interpolation));
      Some(FlipLR(FlipUD(result)))
    else if pattern == "GRBG" then
      assert Name(GRBG) == pattern;
      FlipsKeepSupport(img, interpolation);
      var result := Reconstruct(FlipLR(img), interpolation, corrected);
      FlipsKeepShape(result, OutHeight(img, interpolation), OutWidth(img, interpolation));
      Some(FlipLR(result))
    else if pattern == "GBRG" then
      assert Name(GBRG) == pattern;
      FlipsKeepSupport(img, interpolation);
      var result := Reconstruct(FlipUD(img), interpolation, corrected);
      FlipsKeepShape(result, OutHeight(img, interpolation), OutWidth(img, interpolation));
      Some(FlipUD(result))
    else
      None
  }

  /** `bayer_to_rgb` as written: `interpolation_rggb` keeps lines 334-335. */
  function BayerToRgb(img: Mosaic, pattern: string, interpolation: bool): (out: Option<RgbImage>)
    requires forall p :: Name(p) == pattern ==> Supported(img, interpolation)
    ensures out.Some? <==> exists p :: Name(p) == pattern
    ensures out.Some? ==> HasShape(out.value, OutHeight(img, interpolation), OutWidth(img, interpolation))
  {
    Dispatch(img, pattern, interpolation, false)
  }

  /** `bayer_to_rgb` over the corrected interpolation routine. */
  function CorrectedBayerToRgb(img: Mosaic, pattern: string, interpolation: bool): (out: Option<RgbImage>)
    requires forall p :: Name(p) == pattern ==> Supported(img, interpolation)
    ensures out.Some? <==> exists p :: Name(p) == pattern
    ensures out.Some? ==> HasShape(out.value, OutHeight(img, interpolation), OutWidth(img, interpolation))
  {
    Dispatch(img, pattern, interpolation, true)
  }

  /** The mosaic handed to the RGGB routine for layout p. */
  function Canonical(p: Pattern, img: Mosaic): Mosaic {
    match p
    case RGGB => img
    case BGGR => FlipUD(FlipLR(img))
    case GRBG => FlipLR(img)
    case GBRG => FlipUD(img)
  }

  /** The flips that bring the routine's result back to the orientation of the input. */
  function Restore(p: Pattern, g: RgbImage): RgbImage {
    match p
    case RGGB => g
    case BGGR => FlipLR(FlipUD(g))
    case GRBG => FlipLR(g)
    case GBRG => FlipUD(g)
  }

  /** Where the flips for layout p move site (i, j) of an h x w buffer. */
  function Moved(p: Pattern, h: nat, w: nat, i: nat, j: nat): (s: (nat, nat))
    requires i < h && j < w
    ensures s.0 < h && s.1 < w
  {
    match p
    case RGGB => (i, j)
    case BGGR => (h - 1 - i, w - 1 - j)
    case GRBG => (i, w - 1 - j)
    case GBRG => (h - 1 - i, j)
  }

  /** For a layout name the dispatcher flips the mosaic into RGGB, runs the routine and flips
      the result back. */
  lemma DispatchForm(img: Mosaic, p: Pattern, interpolation: bool, corrected: bool)
    requires Supported(img, interpolation)
    ensures Supported(Canonical(p, img), interpolation)
    ensures |Canonical(p, img)| == |img| && Width(Canonical(p, img)) == Width(img)
    ensures Dispatch(img, Name(p), interpolation, corrected)
      == Some(Restore(p, Reconstruct(Canonical(p, img), interpolation, corrected)))
  {
    FlipsKeepSupport(img, interpolation);
  }

  /** The flips carry every site of a mosaic in layout p to a site of the same colour in the
      RGGB layout, and carry its sample along. */
  lemma CanonicalLayout(p: Pattern, img: Mosaic, i: nat, j: nat)
    requires EvenDims(img) && i < |img| && j < Width(img)
    ensures var s := Moved(p, |img|, Width(img), i, j);
      |Canonical(p, img)| == |img| && |Canonical(p, img)[s.0]| == Width(img)
      && Canonical(p, img)[s.0][s.1] == img[i][j]
      && PhaseAt(s.0, s.1) == PatternPhase(p, i, j)
  {
    CanonicalSample(p, img, i, j);
    MovedPhase(p, |img|, Width(img), i, j);
  }

  lemma CanonicalSample(p: Pattern, img: Mosaic, i: nat, j: nat)
    requires IsGrid(img) && i < |img| && j < Width(img)
    ensures var s := Moved(p, |img|, Width(img), i, j);
      |Canonical(p, img)| == |img| && |Canonical(p, img)[s.0]| == Width(img)
      && Canonical(p, img)[s.0][s.1] == img[i][j]
  {
    match p
    case RGGB =>
    case BGGR =>
      FlipLRShape(img);
      FlipUDShape(FlipLR(img));
    case GRBG =>
      FlipLRShape(img);
    case GBRG =>
      FlipUDShape(img);
  }

  /** With even dimensions, reversing an axis swaps the parity of every index on it. */
  lemma MovedPhase(p: Pattern, h: nat, w: nat, i: nat, j: nat)
    requires h % 2 == 0 && w % 2 == 0 && i < h && j < w
    ensures var s := Moved(p, h, w, i, j); PhaseAt(s.0, s.1) == PatternPhase(p, i, j)
  {
    var s, t := Moved(p, h, w, i, j), Moved(p, 2, 2, i % 2, j % 2);
    ParitySwap(h, i);
    ParitySwap(w, j);
    assert s.0 % 2 == t.0 && s.1 % 2 == t.1;
    TileLayout(p, i % 2, j % 2);
    BlockTile(p, i / 2, j / 2, i % 2, j % 2);
  }

  /** Counting an index of an even-length axis from the far end swaps its parity. */
  lemma ParitySwap(n: nat, k: nat)
    requires n % 2 == 0 && k < n
    ensures (n - 1 - k) % 2 == 1 - k % 2
  {
  }

  /** Within the 2 x 2 tile the flips for layout p send each colour of p to the place of the
      same colour in RGGB. */
  lemma TileLayout(p: Pattern, dr: nat, dc: nat)
    requires dr < 2 && dc < 2
    ensures var t := Moved(p, 2, 2, dr, dc); PhaseAt(t.0, t.1) == PatternPhase(p, dr, dc)
  {
    var tile := Name(p);
    assert tile[0] == 'R' || tile[0] == 'G' || tile[0] == 'B';
  }

  /** Restoring puts the routine's output for the moved site back at the site. */
  lemma RestoreSite(p: Pattern, g: RgbImage, h: nat, w: nat, i: nat, j: nat)
    requires HasShape(g, h, w) && i < h && j < w
    ensures var s := Moved(p, h, w, i, j);
      HasShape(Restore(p, g), h, w) && Restore(p, g)[i][j] == g[s.0][s.1]
  {
    FlipsKeepShape(g, h, w);
    match p
    case RGGB =>
    case BGGR =>
      assert FlipUD(g)[i] == g[h - 1 - i];
    case GRBG =>
    case GBRG =>
  }

  /** Interpolating a mosaic in layout p: each output pixel is the pixel the chosen RGGB
      routine makes at the moved site of the flipped mosaic, which has the colour and the
      sample of the original site. */
  lemma RoutinePixel(img: Mosaic, p: Pattern, i: nat, j: nat, corrected: bool)
    requires Supported(img, true) && i < |img| && j < Width(img)
    ensures Dispatch(img, Name(p), true, corrected).Some?
    ensures var s, c := Moved(p, |img|, Width(img), i, j), Canonical(p, img);
      IsGrid(c) && Dims(|c|, Width(c)) && Inside(c, s.0, s.1)
      && c[s.0][s.1] == img[i][j] && PhaseAt(s.0, s.1) == PatternPhase(p, i, j)
      && Dispatch(img, Name(p), true, corrected).value[i][j] == Reconstruct(c, true, corrected)[s.0][s.1]
  {
    var h, w := |img|, Width(img);
    DispatchForm(img, p, true, corrected);
    CanonicalLayout(p, img, i, j);
    var c := Canonical(p, img);
    RestoreSite(p, Reconstruct(c, true, corrected), h, w, i, j);
  }

  /** `bayer_to_rgb` as written: each interpolated pixel is what `interpolation_rggb` stores at
      the moved site of the flipped mosaic, bottom-row quirk included, and is a byte. */
  lemma InterpolatedPattern(img: Mosaic, p: Pattern, i: nat, j: nat)
    requires Supported(img, true) && i < |img| && j < Width(img)
    ensures BayerToRgb(img, Name(p), true).Some?
    ensures var s, c := Moved(p, |img|, Width(img), i, j), Canonical(p, img);
      IsGrid(c) && Dims(|c|, Width(c)) && Inside(c, s.0, s.1)
      && c[s.0][s.1] == img[i][j] && PhaseAt(s.0, s.1) == PatternPhase(p, i, j)
      && BayerToRgb(img, Name(p), true).value[i][j] == Interpolated(c, s.0, s.1)
    ensures forall ch :: 0 <= ch < 3 ==> 0 <= BayerToRgb(img, Name(p), true).value[i][j].Channel(ch) < 256
  {
    RoutinePixel(img, p, i, j, false);
    var s, c := Moved(p, |img|, Width(img), i, j), Canonical(p, img);
    forall ch | 0 <= ch < 3 ensures 0 <= Interpolated(c, s.0, s.1).Channel(ch) < 256 {
      InterpolatedIsByte(c, s.0, s.1, ch);
    }
  }

  /** Over the corrected routine, each interpolated pixel is the bilinear rule at the moved
      site of the flipped mosaic. */
  lemma CorrectedPattern(img: Mosaic, p: Pattern, i: nat, j: nat)
    requires Supported(img, true) && i < |img| && j < Width(img)
    ensures CorrectedBayerToRgb(img, Name(p), true).Some?
    ensures var s, c := Moved(p, |img|, Width(img), i, j), Canonical(p, img);
      IsGrid(c) && Dims(|c|, Width(c)) && Inside(c, s.0, s.1)
      && CorrectedBayerToRgb(img, Name(p), true).value[i][j] == Intended(c, s.0, s.1)
  {
    RoutinePixel(img, p, i, j, true);
  }

  /** The RGGB bilinear rule at the moved site of the flipped mosaic is the bilinear rule at
      (i, j) of the input, for the colour layout p gives (i, j). */
  lemma IntendedMoved(img: Mosaic, p: Pattern, i: nat, j: nat)
    requires Supported(img, true) && i < |img| && j < Width(img)
    ensures var s, c := Moved(p, |img|, Width(img), i, j), Canonical(p, img);
      IsGrid(c) && Dims(|c|, Width(c)) && Inside(c, s.0, s.1)
      && Intended(c, s.0, s.1) == Bilinear(img, i, j, PatternPhase(p, i, j))
  {
    FlipsKeepSupport(img, true);
    CanonicalLayout(p, img, i, j);
    CanonicalShape(p, img);
    OrthogonalMoved(p, img, i, j);
    DiagonalMoved(p, img, i, j);
    HorizontalMoved(p, img, i, j);
    VerticalMoved(p, img, i, j);
  }

  /** An offset of a along the rows of the flipped mosaic, seen in the input: reversed when
      layout p reverses the rows; likewise b along the columns. */
  function RowStep(p: Pattern, a: int): int {
    if p == BGGR || p == GBRG then -a else a
  }

  function ColStep(p: Pattern, b: int): int {
    if p == BGGR || p == GRBG then -b else b
  }

  lemma CanonicalShape(p: Pattern, img: Mosaic)
    requires IsGrid(img)
    ensures IsGrid(Canonical(p, img)) && |Canonical(p, img)| == |img| && Width(Canonical(p, img)) == Width(img)
  {
    match p
    case RGGB =>
    case BGGR =>
      FlipLRShape(img);
      FlipUDShape(FlipLR(img));
    case GRBG =>
      FlipLRShape(img);
    case GBRG =>
      FlipUDShape(img);
  }

  /** The site at offset (a, b) from the moved site of the flipped mosaic is the site at the
      mirrored offset from (i, j) in the input: both exist or neither does, and they hold the
      same sample. */
  lemma NeighbourMoved(p: Pattern, img: Mosaic, i: nat, j: nat, a: int, b: int)
    requires IsGrid(img) && i < |img| && j < Width(img)
    ensures var s, c := Moved(p, |img|, Width(img), i, j), Canonical(p, img);
      IsGrid(c) && |c| == |img| && Width(c) == Width(img)
      && Present(c, s.0 + a, s.1 + b) == Present(img, i + RowStep(p, a), j + ColStep(p, b))
      && Get(c, s.0 + a, s.1 + b) == Get(img, i + RowStep(p, a), j + ColStep(p, b))
  {
    var h, w := |img|, Width(img);
    var s := Moved(p, h, w, i, j);
    var i', j' := i + RowStep(p, a), j + ColStep(p, b);
    CanonicalShape(p, img);
    if 0 <= i' < h && 0 <= j' < w {
      assert Moved(p, h, w, i', j') == (s.0 + a, s.1 + b);
      CanonicalSample(p, img, i', j');
    }
  }

  /** Each neighbourhood the bilinear rule averages is symmetric under reversing either axis,
      so the flipped mosaic has, around the moved site, the same in-grid neighbours as the
      input around (i, j), holding the same samples. */
  predicate SameNeighbourhood(p: Pattern, img: Mosaic, i: nat, j: nat, ds: Offsets)
    requires IsGrid(img) && i < |img| && j < Width(img)
  {
    var s, c := Moved(p, |img|, Width(img), i, j), Canonical(p, img);
    IsGrid(c) && NeighbourCount(c, s.0, s.1, ds) == NeighbourCount(img, i, j, ds)
    && NeighbourSum(c, s.0, s.1, ds) == NeighbourSum(img, i, j, ds)
  }

  lemma OrthogonalMoved(p: Pattern, img: Mosaic, i: nat, j: nat)
    requires IsGrid(img) && i < |img| && j < Width(img)
    ensures SameNeighbourhood(p, img, i, j, Orthogonal)
  {
    VerticalMoved(p, img, i, j);
    HorizontalMoved(p, img, i, j);
    var s, c := Moved(p, |img|, Width(img), i, j), Canonical(p, img);
    OrthogonalSplit(c, s.0, s.1);
    OrthogonalSplit(img, i, j);
  }

  /** The orthogonal neighbours are the vertical pair and the horizontal pair. */
  lemma OrthogonalSplit(img: Mosaic, i: int, j: int)
    requires IsGrid(img)
    ensures NeighbourCount(img, i, j, Orthogonal)
      == NeighbourCount(img, i, j, Vertical) + NeighbourCount(img, i, j, Horizontal)
    ensures NeighbourSum(img, i, j, Orthogonal)
      == NeighbourSum(img, i, j, Vertical) + NeighbourSum(img, i, j, Horizontal)
  {
  }

  lemma DiagonalMoved(p: Pattern, img: Mosaic, i: nat, j: nat)
    requires IsGrid(img) && i < |img| && j < Width(img)
    ensures SameNeighbourhood(p, img, i, j, Diagonal)
  {
    NeighbourMoved(p, img, i, j, -1, -1);
    NeighbourMoved(p, img, i, j, -1, 1);
    NeighbourMoved(p, img, i, j, 1, -1);
    NeighbourMoved(p, img, i, j, 1, 1);
    var s, c := Moved(p, |img|, Width(img), i, j), Canonical(p, img);
    var r, k := RowStep(p, 1), ColStep(p, 1);
    assert RowStep(p, -1) == -r && ColStep(p, -1) == -k;
    DiagonalPermuted(c, img, s.0, s.1, i, j, r, k);
  }

  /** Reversing either axis only reorders the four diagonal neighbours: when the diagonal
      neighbours of (a, b) in c are those of (i, j) in img, rows mirrored by r and columns by
      k, both sites have the same diagonal count and sum. */
  lemma DiagonalPermuted(c: Mosaic, img: Mosaic, a: int, b: int, i: int, j: int, r: int, k: int)
    requires IsGrid(c) && IsGrid(img) && (r == 1 || r == -1) && (k == 1 || k == -1)
    requires Present(c, a + -1, b + -1) == Present(img, i + -r, j + -k)
    requires Present(c, a + -1, b + 1) == Present(img, i + -r, j + k)
    requires Present(c, a + 1, b + -1) == Present(img, i + r, j + -k)
    requires Present(c, a + 1, b + 1) == Present(img, i + r, j + k)
    requires Get(c, a + -1, b + -1) == Get(img, i + -r, j + -k)
    requires Get(c, a + -1, b + 1) == Get(img, i + -r, j + k)
    requires Get(c, a + 1, b + -1) == Get(img, i + r, j + -k)
    requires Get(c, a + 1, b + 1) == Get(img, i + r, j + k)
    ensures NeighbourCount(c, a, b, Diagonal) == NeighbourCount(img, i, j, Diagonal)
    ensures NeighbourSum(c, a, b, Diagonal) == NeighbourSum(img, i, j, Diagonal)
  {
  }

  lemma HorizontalMoved(p: Pattern, img: Mosaic, i: nat, j: nat)
    requires IsGrid(img) && i < |img| && j < Width(img)
    ensures SameNeighbourhood(p, img, i, j, Horizontal)
  {
    NeighbourMoved(p, img, i, j, 0, -1);
    NeighbourMoved(p, img, i, j, 0, 1);
    assert RowStep(p, 0) == 0;
    if p == BGGR || p == GRBG {
      assert ColStep(p, -1) == 1 && ColStep(p, 1) == -1;
    } else {
      assert ColStep(p, -1) == -1 && ColStep(p, 1) == 1;
    }
  }

  lemma VerticalMoved(p: Pattern, img: Mosaic, i: nat, j: nat)
    requires IsGrid(img) && i < |img| && j < Width(img)
    ensures SameNeighbourhood(p, img, i, j, Vertical)
  {
    NeighbourMoved(p, img, i, j, -1, 0);
    NeighbourMoved(p, img, i, j, 1, 0);
    assert ColStep(p, 0) == 0;
    if p == BGGR || p == GBRG {
      assert RowStep(p, -1) == 1 && RowStep(p, 1) == -1;
    } else {
      assert RowStep(p, -1) == -1 && RowStep(p, 1) == 1;
    }
  }

  /** Over the corrected routine the dispatcher reconstructs every layout by the same bilinear
      rule, applied to the input in its own orientation: each output pixel keeps the site's
      sample in the channel of the colour layout p gives the site, and fills each other
      channel with the truncated mean of the in-grid neighbours of that colour. Every channel
      is a byte. */
  lemma BilinearPattern(img: Mosaic, p: Pattern, i: nat, j: nat)
    requires Supported(img, true) && i < |img| && j < Width(img)
    ensures CorrectedBayerToRgb(img, Name(p), true).Some?
    ensures CorrectedBayerToRgb(img, Name(p), true).value[i][j] == Bilinear(img, i, j, PatternPhase(p, i, j))
    ensures CorrectedBayerToRgb(img, Name(p), true).value[i][j].Channel(ChannelOf(PatternPhase(p, i, j))) == img[i][j]
    ensures forall c :: 0 <= c < 3 ==> 0 <= CorrectedBayerToRgb(img, Name(p), true).value[i][j].Channel(c) < 256
  {
    CorrectedPattern(img, p, i, j);
    IntendedMoved(img, p, i, j);
    forall c | 0 <= c < 3
      ensures 0 <= Bilinear(img, i, j, PatternPhase(p, i, j)).Channel(c) < 256
    {
      BilinearIsByte(img, i, j, PatternPhase(p, i, j), c);
    }
  }

  /** `bayer_to_rgb` as written agrees with the bilinear rule at (i, j) exactly when the moved
      site is not a bottom-row green site of the flipped mosaic from column 2 on, or when the
      two scalars of lines 334-335 happen to equal that site's red neighbour above and its own
      sample. */
  lemma AsWrittenPattern(img: Mosaic, p: Pattern, i: nat, j: nat)
    requires Supported(img, true) && i < |img| && j < Width(img)
    ensures BayerToRgb(img, Name(p), true).Some?
    ensures var s, c := Moved(p, |img|, Width(img), i, j), Canonical(p, img);
      IsGrid(c) && Dims(|c|, Width(c)) && Inside(c, s.0, s.1)
      && (BayerToRgb(img, Name(p), true).value[i][j] == Bilinear(img, i, j, PatternPhase(p, i, j))
          <==> (!BottomRowGreen(c, s.0, s.1)
                || (c[|c| - 2][Width(c) - 2] == c[s.0 - 1][s.1] && c[s.0][2] == c[s.0][s.1])))
  {
    InterpolatedPattern(img, p, i, j);
    IntendedMoved(img, p, i, j);
    var s, c := Moved(p, |img|, Width(img), i, j), Canonical(p, img);
    MatchesBilinear(c, s.0, s.1);
  }

  /** Where those sites lie in the input: on its last row for RGGB and GRBG and on its first
      row for BGGR and GBRG, at the green sites sharing a row with blue, from column 2 on
      counted from the side the layout's flips put at column 0. */
  lemma MovedBottomRow(img: Mosaic, p: Pattern, i: nat, j: nat)
    requires Supported(img, true) && i < |img| && j < Width(img)
    ensures var s, c := Moved(p, |img|, Width(img), i, j), Canonical(p, img);
      |c| == |img| &&
      (BottomRowGreen(c, s.0, s.1) <==>
        (if p == RGGB || p == GRBG then i == |img| - 1 else i == 0)
        && PatternPhase(p, i, j) == GreenOnBlue
        && (if p == RGGB || p == GBRG then j >= 2 else j <= Width(img) - 3))
  {
    CanonicalLayout(p, img, i, j);
  }

  /** On the 2 x 6 mosaic whose row 0 holds reds 1 and 2 at columns 2 and 4, the RGGB
      interpolation as written gives site (1, 2) red 2, and the corrected one red 1, the
      sample of its only red neighbour. */
  lemma DispatchCounterexample(img: Mosaic)
    requires img == [[0, 0, 1, 0, 2, 0], [0, 0, 0, 0, 0, 0]]
    ensures Supported(img, true)
    ensures BayerToRgb(img, "RGGB", true).Some? && BayerToRgb(img, "RGGB", true).value[1][2].r == 2
    ensures CorrectedBayerToRgb(img, "RGGB", true).Some? && CorrectedBayerToRgb(img, "RGGB", true).value[1][2].r == 1
  {
    assert Supported(img, true);
    InterpolatedPattern(img, RGGB, 1, 2);
    CorrectedPattern(img, RGGB, 1, 2);
    assert BottomRowGreen(img, 1, 2);
    BottomGreenIntended(img, 1, 2);
  }

  /** The sample of site (i, j) if it records colour c in layout p, else 0; and the matching
      count. */
  function Share(p: Pattern, img: Mosaic, i: nat, j: nat, c: nat): int
    requires i < |img| && j < |img[i]|
  {
    if ChannelOf(PatternPhase(p, i, j)) == c then img[i][j] else 0
  }

  function Counted(p: Pattern, i: nat, j: nat, c: nat): nat {
    if ChannelOf(PatternPhase(p, i, j)) == c then 1 else 0
  }

  /** The sum and the number of the samples of colour c in block (bi, bj). */
  function BlockSum(p: Pattern, img: Mosaic, bi: nat, bj: nat, c: nat): int
    requires EvenDims(img) && bi < |img| / 2 && bj < Width(img) / 2
  {
    Share(p, img, 2 * bi, 2 * bj, c) + Share(p, img, 2 * bi, 2 * bj + 1, c)
    + Share(p, img, 2 * bi + 1, 2 * bj, c) + Share(p, img, 2 * bi + 1, 2 * bj + 1, c)
  }

  function BlockCount(p: Pattern, bi: nat, bj: nat, c: nat): nat {
    Counted(p, 2 * bi, 2 * bj, c) + Counted(p, 2 * bi, 2 * bj + 1, c)
    + Counted(p, 2 * bi + 1, 2 * bj, c) + Counted(p, 2 * bi + 1, 2 * bj + 1, c)
  }

  /** A block holds the same colours as the tile at the origin. */
  lemma BlockTile(p: Pattern, bi: nat, bj: nat, dr: nat, dc: nat)
    requires dr < 2 && dc < 2
    ensures PatternPhase(p, 2 * bi + dr, 2 * bj + dc) == PatternPhase(p, dr, dc)
  {
    assert (2 * bi + dr) % 2 == dr && (2 * bj + dc) % 2 == dc;
  }

  /** Decimating a mosaic in layout p: channel c of output pixel (bi, bj) is the truncated mean
      of the samples of colour c in block (bi, bj) of the input — its one red sample, the mean
      of its two greens, its one blue sample. */
  lemma DecimatedPattern(img: Mosaic, p: Pattern, bi: nat, bj: nat, c: nat)
    requires EvenDims(img) && bi < |img| / 2 && bj < Width(img) / 2 && c < 3
    ensures BayerToRgb(img, Name(p), false).Some?
    ensures BlockCount(p, bi, bj, c) > 0
    ensures BayerToRgb(img, Name(p), false).value[bi][bj].Channel(c)
      == BlockSum(p, img, bi, bj, c) / BlockCount(p, bi, bj, c)
  {
    DecimatedPixel(img, p, bi, bj);
    BlockMean(img, p, bi, bj, c);
  }

  /** Output pixel (bi, bj) is the routine's pixel for the moved block of the flipped mosaic. */
  lemma DecimatedPixel(img: Mosaic, p: Pattern, bi: nat, bj: nat)
    requires EvenDims(img) && bi < |img| / 2 && bj < Width(img) / 2
    ensures BayerToRgb(img, Name(p), false).Some?
    ensures var s, cm := Moved(p, |img| / 2, Width(img) / 2, bi, bj), Canonical(p, img);
      EvenDims(cm) && |cm| == |img| && Width(cm) == Width(img)
      && BayerToRgb(img, Name(p), false).value[bi][bj] == BlockPixel(cm, s.0, s.1)
  {
    var h, w := |img|, Width(img);
    DispatchForm(img, p, false, false);
    RestoreSite(p, Decimate(Canonical(p, img)), h / 2, w / 2, bi, bj);
  }

  /** The routine's pixel for the moved block averages the input block's samples colour by
      colour. */
  lemma BlockMean(img: Mosaic, p: Pattern, bi: nat, bj: nat, c: nat)
    requires EvenDims(img) && bi < |img| / 2 && bj < Width(img) / 2 && c < 3
    ensures BlockCount(p, bi, bj, c) > 0
    ensures var s, cm := Moved(p, |img| / 2, Width(img) / 2, bi, bj), Canonical(p, img);
      EvenDims(cm) && |cm| == |img| && Width(cm) == Width(img)
      && BlockPixel(cm, s.0, s.1).Channel(c) == BlockSum(p, img, bi, bj, c) / BlockCount(p, bi, bj, c)
  {
    BlockPixelSamples(img, p, bi, bj);
    BlockSumSamples(img, p, bi, bj, c);
  }

  /** The pixel the routine makes of a block whose samples, read row by row in the input, are
      x00, x01, x10, x11. */
  function TilePixel(p: Pattern, x00: int, x01: int, x10: int, x11: int): Rgb {
    match p
    case RGGB => Rgb(x00, (x01 + x10) / 2, x11)
    case BGGR => Rgb(x11, (x10 + x01) / 2, x00)
    case GRBG => Rgb(x01, (x00 + x11) / 2, x10)
    case GBRG => Rgb(x10, (x11 + x00) / 2, x01)
  }

  lemma BlockPixelSamples(img: Mosaic, p: Pattern, bi: nat, bj: nat)
    requires EvenDims(img) && bi < |img| / 2 && bj < Width(img) / 2
    ensures var s, cm := Moved(p, |img| / 2, Width(img) / 2, bi, bj), Canonical(p, img);
      EvenDims(cm) && |cm| == |img| && Width(cm) == Width(img)
      && BlockPixel(cm, s.0, s.1) == TilePixel(p, img[2 * bi][2 * bj], img[2 * bi][2 * bj + 1],
                                                img[2 * bi + 1][2 * bj], img[2 * bi + 1][2 * bj + 1])
  {
    CanonicalShape(p, img);
    var s, cm := Moved(p, |img| / 2, Width(img) / 2, bi, bj), Canonical(p, img);
    BlockSite(img, p, bi, bj, 0, 0);
    BlockSite(img, p, bi, bj, 0, 1);
    BlockSite(img, p, bi, bj, 1, 0);
    BlockSite(img, p, bi, bj, 1, 1);
    TileToPixel(p, cm, s.0, s.1, img[2 * bi][2 * bj], img[2 * bi][2 * bj + 1],
                img[2 * bi + 1][2 * bj], img[2 * bi + 1][2 * bj + 1]);
  }

  /** Sample (dr, dc) of the 2 x 2 tile at block (a, b) of a mosaic, counted in the
      orientation layout p flips the tile into. */
  function TileSite(p: Pattern, cm: Mosaic, a: nat, b: nat, dr: nat, dc: nat): int
    requires EvenDims(cm) && a < |cm| / 2 && b < Width(cm) / 2 && dr < 2 && dc < 2
  {
    var t := Moved(p, 2, 2, dr, dc);
    cm[2 * a + t.0][2 * b + t.1]
  }

  /** A block whose flipped tile sites hold x00, x01, x10, x11 gives the pixel `TilePixel`
      names. */
  lemma TileToPixel(p: Pattern, cm: Mosaic, a: nat, b: nat, x00: int, x01: int, x10: int, x11: int)
    requires EvenDims(cm) && a < |cm| / 2 && b < Width(cm) / 2
    requires TileSite(p, cm, a, b, 0, 0) == x00 && TileSite(p, cm, a, b, 0, 1) == x01
    requires TileSite(p, cm, a, b, 1, 0) == x10 && TileSite(p, cm, a, b, 1, 1) == x11
    ensures BlockPixel(cm, a, b) == TilePixel(p, x00, x01, x10, x11)
  {
    match p
    case RGGB => PixelOfSamples(cm, a, b, x00, x01, x10, x11);
    case BGGR => PixelOfSamples(cm, a, b, x11, x10, x01, x00);
    case GRBG => PixelOfSamples(cm, a, b, x01, x00, x11, x10);
    case GBRG => PixelOfSamples(cm, a, b, x10, x11, x00, x01);
  }

  /** The routine's pixel for a block whose samples, row by row, are y00, y01, y10, y11. */
  lemma PixelOfSamples(cm: Mosaic, a: nat, b: nat, y00: int, y01: int, y10: int, y11: int)
    requires EvenDims(cm) && a < |cm| / 2 && b < Width(cm) / 2
    requires cm[2 * a][2 * b] == y00 && cm[2 * a][2 * b + 1] == y01
    requires cm[2 * a + 1][2 * b] == y10 && cm[2 * a + 1][2 * b + 1] == y11
    ensures BlockPixel(cm, a, b) == Rgb(y00, (y01 + y10) / 2, y11)
  {
  }

  lemma BlockSumSamples(img: Mosaic, p: Pattern, bi: nat, bj: nat, c: nat)
    requires EvenDims(img) && bi < |img| / 2 && bj < Width(img) / 2 && c < 3
    ensures BlockCount(p, bi, bj, c) > 0
    ensures TilePixel(p, img[2 * bi][2 * bj], img[2 * bi][2 * bj + 1],
                      img[2 * bi + 1][2 * bj], img[2 * bi + 1][2 * bj + 1]).Channel(c)
      == BlockSum(p, img, bi, bj, c) / BlockCount(p, bi, bj, c)
  {
    BlockKept(p, img, bi, bj, c);
    TileMean(p, c, img[2 * bi][2 * bj], img[2 * bi][2 * bj + 1], img[2 * bi + 1][2 * bj], img[2 * bi + 1][2 * bj + 1]);
  }

  /** A block's sum and count for colour c are those of the tile at the origin holding the
      block's four samples. */
  lemma BlockKept(p: Pattern, img: Mosaic, bi: nat, bj: nat, c: nat)
    requires EvenDims(img) && bi < |img| / 2 && bj < Width(img) / 2
    ensures BlockSum(p, img, bi, bj, c)
      == Kept(p, 0, 0, c, img[2 * bi][2 * bj]) + Kept(p, 0, 1, c, img[2 * bi][2 * bj + 1])
       + Kept(p, 1, 0, c, img[2 * bi + 1][2 * bj]) + Kept(p, 1, 1, c, img[2 * bi + 1][2 * bj + 1])
    ensures BlockCount(p, bi, bj, c)
      == KeptCount(p, 0, 0, c) + KeptCount(p, 0, 1, c) + KeptCount(p, 1, 0, c) + KeptCount(p, 1, 1, c)
  {
    BlockKeptSum(p, img, bi, bj, c);
    BlockKeptCount(p, img, bi, bj, c);
  }

  lemma BlockKeptSum(p: Pattern, img: Mosaic, bi: nat, bj: nat, c: nat)
    requires EvenDims(img) && bi < |img| / 2 && bj < Width(img) / 2
    ensures BlockSum(p, img, bi, bj, c)
      == Kept(p, 0, 0, c, img[2 * bi][2 * bj]) + Kept(p, 0, 1, c, img[2 * bi][2 * bj + 1])
       + Kept(p, 1, 0, c, img[2 * bi + 1][2 * bj]) + Kept(p, 1, 1, c, img[2 * bi + 1][2 * bj + 1])
  {
    ShareTile(p, img, bi, bj, 2 * bi, 2 * bj, 0, 0, c);
    ShareTile(p, img, bi, bj, 2 * bi, 2 * bj + 1, 0, 1, c);
    ShareTile(p, img, bi, bj, 2 * bi + 1, 2 * bj, 1, 0, c);
    ShareTile(p, img, bi, bj, 2 * bi + 1, 2 * bj + 1, 1, 1, c);
  }

  lemma BlockKeptCount(p: Pattern, img: Mosaic, bi: nat, bj: nat, c: nat)
    requires EvenDims(img) && bi < |img| / 2 && bj < Width(img) / 2
    ensures BlockCount(p, bi, bj, c)
      == KeptCount(p, 0, 0, c) + KeptCount(p, 0, 1, c) + KeptCount(p, 1, 0, c) + KeptCount(p, 1, 1, c)
  {
    ShareTile(p, img, bi, bj, 2 * bi, 2 * bj, 0, 0, c);
    ShareTile(p, img, bi, bj, 2 * bi, 2 * bj + 1, 0, 1, c);
    ShareTile(p, img, bi, bj, 2 * bi + 1, 2 * bj, 1, 0, c);
    ShareTile(p, img, bi, bj, 2 * bi + 1, 2 * bj + 1, 1, 1, c);
  }

  /** Every block contributes to a colour's sum and count as the tile at the origin does. */
  lemma ShareTile(p: Pattern, img: Mosaic, bi: nat, bj: nat, i: nat, j: nat, dr: nat, dc: nat, c: nat)
    requires EvenDims(img) && bi < |img| / 2 && bj < Width(img) / 2 && dr < 2 && dc < 2
    requires i == 2 * bi + dr && j == 2 * bj + dc
    ensures i < |img| && j < |img[i]|
    ensures Share(p, img, i, j, c) == Kept(p, dr, dc, c, img[i][j])
    ensures Counted(p, i, j, c) == KeptCount(p, dr, dc, c)
  {
    BlockTile(p, bi, bj, dr, dc);
  }

  /** The channel layout p records at offset (dr, dc) of its tile. */
  function TileChannel(p: Pattern, dr: nat, dc: nat): nat {
    ChannelOf(PatternPhase(p, dr, dc))
  }

  /** x, if the tile site recording it has channel c, else 0; and its count. */
  function Kept(p: Pattern, dr: nat, dc: nat, c: nat, x: int): int {
    if TileChannel(p, dr, dc) == c then x else 0
  }

  function KeptCount(p: Pattern, dr: nat, dc: nat, c: nat): nat {
    if TileChannel(p, dr, dc) == c then 1 else 0
  }

  /** Channel c of the pixel a tile x00, x01, x10, x11 gives is the truncated mean of the
      tile's samples of colour c, and the tile has at least one. */
  lemma TileMean(p: Pattern, c: nat, x00: int, x01: int, x10: int, x11: int)
    requires c < 3
    ensures var n := KeptCount(p, 0, 0, c) + KeptCount(p, 0, 1, c) + KeptCount(p, 1, 0, c) + KeptCount(p, 1, 1, c);
      n > 0 && TilePixel(p, x00, x01, x10, x11).Channel(c)
        == (Kept(p, 0, 0, c, x00) + Kept(p, 0, 1, c, x01) + Kept(p, 1, 0, c, x10) + Kept(p, 1, 1, c, x11)) / n
  {
    TileLayout(p, 0, 0);
    TileLayout(p, 0, 1);
    TileLayout(p, 1, 0);
    TileLayout(p, 1, 1);
  }

  /** Sample (dr, dc) of block (bi, bj) of the input, as the flipped mosaic holds it. */
  lemma BlockSite(img: Mosaic, p: Pattern, bi: nat, bj: nat, dr: nat, dc: nat)
    requires EvenDims(img) && bi < |img| / 2 && bj < Width(img) / 2 && dr < 2 && dc < 2
    ensures var s, cm := Moved(p, |img| / 2, Width(img) / 2, bi, bj), Canonical(p, img);
      EvenDims(cm) && |cm| == |img| && Width(cm) == Width(img)
      && TileSite(p, cm, s.0, s.1, dr, dc) == img[2 * bi + dr][2 * bj + dc]
  {
    var h, w := |img|, Width(img);
    var h2, w2 := h / 2, w / 2;
    assert h == 2 * h2 && w == 2 * w2;
    CanonicalShape(p, img);
    MovedBlock(p, h2, w2, bi, bj, dr, dc);
    CanonicalSample(p, img, 2 * bi + dr, 2 * bj + dc);
  }

  /** Moving a site of a 2 h2 x 2 w2 buffer moves its block as a site of the h2 x w2 buffer of
      blocks, and its place in the block as a site of a 2 x 2 tile. */
  lemma MovedBlock(p: Pattern, h2: nat, w2: nat, bi: nat, bj: nat, dr: nat, dc: nat)
    requires bi < h2 && bj < w2 && dr < 2 && dc < 2
    ensures var s, t := Moved(p, h2, w2, bi, bj), Moved(p, 2, 2, dr, dc);
      Moved(p, 2 * h2, 2 * w2, 2 * bi + dr, 2 * bj + dc) == (2 * s.0 + t.0, 2 * s.1 + t.1)
  {
  }
}
