# Bayer mosaic to RGB, modelled in Dafny

`bayer.py` turns a single-channel Bayer mosaic into an RGB image. A mosaic records one colour
per site, and which colour depends on the parity of the site's row and column. There are four
layouts, named by their 2 x 2 tile: RGGB, BGGR, GRBG and GBRG. The file does three things:

- `bayer_to_rgb` is the entry point. It reverses the columns and/or the rows of the mosaic so
  that the RGGB layout applies, calls one of the two RGGB routines, and reverses the result
  back. Any other layout name falls through every branch and yields `None`.
- `decimation_rggb` builds a half-size image. Each 2 x 2 block becomes one pixel holding the
  block's red sample, the truncated mean of its two greens, and its blue sample.
- `interpolation_rggb` builds a full-size image with 48 numpy slice assignments into a zero
  buffer. At each site it keeps the site's own sample and fills each missing colour with the
  truncated mean of the in-grid neighbours of that colour (bilinear demosaicing). The one
  exception is the bottom row (see Findings).

The project has seven modules:

- `Images` (images.dfy): samples, mosaics and RGB images, the RGGB colour of a site, and
  `np.fliplr` / `np.flipud` as index reversals.
- `Slices` (slices.dfy): the numpy slice assignments these routines are written in.
  - It covers single indices, including negative ones, and stride-2 slices with clamped
    bounds.
  - A slice on the right-hand side is paired element by element with the one on the left;
    a scalar is broadcast.
  - Two meanings are given: `Painted`, a function for what a cell holds after a list of
    assignments, and `Run`, a method that executes the list on an `array3`.
- `Interpolation` (interpolation.dfy): the 48 assignments of `interpolation_rggb`, transcribed
  in source order (`Entry`). It also holds the per-pixel rule they amount to (`Interpolated`),
  the imperative routine (`InterpolationRggb`), and the proof that the routine computes the rule.
- `InterpolationFacts` (interpolation_facts.dfy): what the per-pixel rule guarantees.
- `BottomRowFix` (bottom_row_fix.dfy): the bottom-row defect, a mosaic that shows it, and the
  corrected routine with its proof.
- `Decimation` (decimation.dfy): `decimation_rggb` as a method over an `array3`, and the
  function that specifies it.
- `Bayer` (bayer.dfy): `bayer_to_rgb` as written (`BayerToRgb`) and over the corrected
  interpolation (`CorrectedBayerToRgb`). It proves that every layout is handled by the RGGB
  routine at the mirrored site. Over the corrected routine that is the bilinear rule in the
  layout's own orientation. As written, the result departs from that rule only at the mirrored
  bottom-row green sites: on the last input row for RGGB and GRBG, and on the first for BGGR and
  GBRG.

## Model

| member | source | states |
|---|---|---|
| Images.FlipLRShape | bayer.py:18 | `np.fliplr` keeps the shape and sends entry (i, j) to (i, W-1-j) |
| Images.FlipUDShape | bayer.py:20 | `np.flipud` keeps the shape and sends entry (i, j) to (H-1-i, j) |
| Images.FlipLRInvolution | bayer.py:44-48 | reversing the columns twice gives back the buffer, so the GRBG branch restores the orientation |
| Images.FlipUDInvolution | bayer.py:63-67 | reversing the rows twice gives back the buffer, so the GBRG branch restores the orientation |
| Images.FlipsCommute | bayer.py:18-26 | the two reversals commute, so the half-turn of lines 18-20 and the restoring flips of lines 24-26 are one and the same map |
| Slices.LastWriteWins | bayer.py:103-354 | after a list of slice assignments on a zero buffer, a cell holds the value stored by the last assignment that selects it |
| Slices.Run | bayer.py:103-354 | executing the assignments in order, each as one simultaneous slice update, leaves every cell as `Painted` says |
| Interpolation.ProgramWellFormed | bayer.py:107-354 | on an even mosaic with at least 2 rows and 4 columns, no assignment raises an IndexError or a broadcasting error |
| Interpolation.OwnerWrites | bayer.py:107-354 | for each site and channel, the assignment 12 * row class + 3 * column class + channel selects that cell |
| Interpolation.LaterMiss | bayer.py:107-354 | no later assignment selects that cell again |
| Interpolation.EvalReading | bayer.py:107-354 | at each cell it selects, an assignment stores the mean of the samples its slices pair with that cell |
| Interpolation.TopLeftSite | bayer.py:105-118 | the top-left corner gets its own red, the mean of its two green neighbours and the diagonal blue |
| Interpolation.TopGreenSite | bayer.py:120-133 | a top-row green site gets the mean of the reds left and right, its own green and the blue below |
| Interpolation.TopRedSite | bayer.py:135-153 | a top-row red site gets its own red, the mean of three greens and the mean of two blues below |
| Interpolation.TopRightSite | bayer.py:155-158 | the top-right corner gets the red to its left, its own green and the blue below |
| Interpolation.LeftGreenSite | bayer.py:160-173 | a left-column green site gets the mean of the reds above and below, its own green and the blue to its right |
| Interpolation.InnerBlueSite | bayer.py:175-195 | an inner blue site gets the mean of the four diagonal reds, the mean of the four orthogonal greens and its own blue |
| Interpolation.InnerGreenOnBlueSite | bayer.py:197-213 | an inner green site on a blue row gets the mean of the reds above and below, its own green and the mean of the blues left and right |
| Interpolation.RightBlueSite | bayer.py:215-232 | a right-column blue site gets the mean of two diagonal reds, the mean of three greens and its own blue |
| Interpolation.LeftRedSite | bayer.py:234-251 | a left-column red site gets its own red, the mean of three greens and the mean of two diagonal blues |
| Interpolation.InnerGreenOnRedSite | bayer.py:253-269 | an inner green site on a red row gets the mean of the reds left and right, its own green and the mean of the blues above and below |
| Interpolation.InnerRedSite | bayer.py:271-291 | an inner red site gets its own red, the mean of four greens and the mean of four diagonal blues |
| Interpolation.RightGreenSite | bayer.py:293-305 | a right-column green site gets the red to its left, its own green and the mean of the blues above and below |
| Interpolation.BottomLeftSite | bayer.py:307-311 | the bottom-left corner gets the red above, its own green and the blue to its right |
| Interpolation.BottomBlueSite | bayer.py:313-330 | a bottom-row blue site gets the mean of two diagonal reds, the mean of three greens and its own blue |
| Interpolation.BottomGreenSite | bayer.py:332-342 | a bottom-row green site from column 2 on gets the scalars I[H-2][W-2] and I[H-1][2] for red and green, and the mean of the blues left and right |
| Interpolation.BottomRightSite | bayer.py:344-354 | the bottom-right corner gets the diagonal red, the mean of two greens and its own blue |
| Interpolation.SiteReading | bayer.py:105-354 | at every site, each channel of the per-pixel rule is what that cell's last assignment reads |
| Interpolation.ProgramMeetsSpec | bayer.py:101-357 | after all 48 assignments, every cell holds the per-pixel rule `Interpolated` |
| Interpolation.InterpolationRggb | bayer.py:101-357 | the routine allocates an H x W x 3 zero buffer and leaves `Interpolated` in every cell |
| Interpolation.Interpolate | bayer.py:101-357 | the whole image the routine produces has H rows of W pixels |
| InterpolationFacts.OwnSampleKept | bayer.py:101-357 | every site keeps its own sample in its colour's channel, except the bottom-row green sites from column 2 on, whose green is the sample at (H-1, 2) |
| InterpolationFacts.MeanWithin | bayer.py:182-183 | the truncated mean of the in-grid neighbours lies between their smallest and largest sample |
| InterpolationFacts.BilinearIsByte | bayer.py:357 | whatever colour a site records, every channel of the bilinear rule fits in a uint8 |
| InterpolationFacts.InterpolatedIsByte | bayer.py:357 | every stored channel fits in a uint8, so `np.uint8` changes no value |
| InterpolationFacts.InteriorFullNeighbourhood | bayer.py:175-195 | away from the borders every neighbourhood is complete: 4 orthogonal, 4 diagonal, 2 per pair |
| InterpolationFacts.TopLeftCorner | bayer.py:105-118 | the top-left pixel is (I[0][0], (I[0][1] + I[1][0]) / 2, I[1][1]) |
| InterpolationFacts.MatchesBilinear | bayer.py:332-335 | the routine agrees with the bilinear rule at a site exactly when the site is not a bottom-row green site from column 2 on, or when the two scalars happen to equal that site's red neighbour above and its own sample |
| InterpolationFacts.CornerExample | bayer.py:105-118 | on the 4 x 4 mosaic 10, 20, ..., 160 the top-left pixel is (10, 35, 60) |
| BottomRowFix.CorrectedEntry | bayer.py:334-335 | the corrected assignments select the same cells and channels as the originals; every other assignment is unchanged |
| BottomRowFix.CorrectedWellFormed | bayer.py:107-354 | the corrected list raises no error under the same dimensions |
| BottomRowFix.BottomGreenIntended | bayer.py:332-335 | at a bottom-row green site the bilinear rule takes the red right above and keeps the site's green |
| BottomRowFix.CorrectedBottomGreen | bayer.py:334-335 | the corrected assignments store exactly those two samples |
| BottomRowFix.OwnerUncorrected | bayer.py:332-335 | the two corrected assignments are exactly the last writers of the red and green channels of the bottom-row green sites from column 2 on |
| BottomRowFix.CorrectedOwner | bayer.py:105-354 | in the corrected list, the last assignment that writes a cell raises no error, selects that cell and stores the bilinear rule's value there |
| BottomRowFix.CorrectedMeetsIntended | bayer.py:101-357 | after the corrected list, every cell holds the bilinear rule |
| BottomRowFix.CorrectedInterpolationRggb | bayer.py:101-357 | the corrected routine leaves the bilinear rule in every cell of a fresh H x W x 3 buffer |
| BottomRowFix.CorrectedInterpolate | bayer.py:101-357 | the corrected whole image has H rows of W pixels |
| BottomRowFix.AsWrittenCounterexample | bayer.py:334-335 | on the 2 x 6 mosaic of Findings the routine as written stores red 2 at (1, 2), whose only red neighbour holds 1 |
| Decimation.PhaseOffsetExact | bayer.py:86-96 | the slice starts (0,0), (0,1), (1,0), (1,1) pick, in every block, exactly the red, green-on-red, green-on-blue and blue sample |
| Decimation.Decimate | bayer.py:77-83 | the decimated image has H/2 rows of W/2 pixels |
| Decimation.PhaseSlice | bayer.py:86-96 | a stride-2 phase slice has one entry per 2 x 2 block: H/2 rows of W/2 values |
| Decimation.GreenMean | bayer.py:89-93 | the averaged green plane has one entry per 2 x 2 block: H/2 rows of W/2 values |
| Decimation.SetChannel | bayer.py:87-98 | assigning a channel plane overwrites exactly that plane with the given values and keeps the other two planes |
| Decimation.DecimationRggb | bayer.py:77-99 | the routine allocates an (H/2) x (W/2) x 3 zero buffer and leaves the block pixel of `Decimate` in every cell |
| Decimation.DecimatedChannels | bayer.py:86-99 | red and blue are copied from the block, green lies between the block's two greens, and every channel fits in a uint8 |
| Decimation.DecimationExample | bayer.py:77-99 | the 4 x 4 mosaic 10, 20, ..., 160 decimates to [[(10,35,60), (30,55,80)], [(90,115,140), (110,135,160)]] |
| Bayer.Reconstruct | bayer.py:5-11 | the flag selects decimation (half size) or interpolation (full size), either the routine as written or the corrected one |
| Bayer.Dispatch | bayer.py:3-75 | a result exists exactly for the four layout names; it has the mosaic's size when interpolating and half of it when decimating |
| Bayer.BayerToRgb | bayer.py:3-75 | `bayer_to_rgb` with `interpolation_rggb` as written: a result exactly for the four layout names, of the mosaic's size when interpolating and half of it when decimating |
| Bayer.CorrectedBayerToRgb | bayer.py:3-75 | the same dispatcher over the corrected interpolation, with the same result shapes |
| Bayer.FlipsKeepSupport | bayer.py:18-20 | the flipped mosaic still meets what the chosen routine needs |
| Bayer.DispatchForm | bayer.py:13-75 | for each layout the dispatcher flips the mosaic into RGGB, runs the routine and applies the restoring flips |
| Bayer.CanonicalLayout | bayer.py:13-75 | the flips carry every site to a site of the same colour in the RGGB layout, with its sample |
| Bayer.MovedPhase | bayer.py:13-75 | with even dimensions, reversing an axis swaps the parity of every index on it, which turns each layout's colours into RGGB's |
| Bayer.TileLayout | bayer.py:13-75 | inside the 2 x 2 tile the flips send each colour of the layout to the place of that colour in RGGB |
| Bayer.RestoreSite | bayer.py:3-75 | the restoring flips put the routine's pixel for the moved site back at the original site |
| Bayer.RoutinePixel | bayer.py:3-75 | each interpolated pixel is the chosen routine's pixel at the moved site, which has the original site's colour and sample |
| Bayer.InterpolatedPattern | bayer.py:3-75 | as written, each interpolated pixel is what `interpolation_rggb` stores at the moved site, bottom-row quirk included, and every channel is a byte |
| Bayer.CorrectedPattern | bayer.py:3-75 | over the corrected routine, each interpolated pixel is the bilinear rule at the moved site |
| Bayer.IntendedMoved | bayer.py:3-75 | the RGGB bilinear rule at the moved site equals the bilinear rule at the original site for the colour the layout gives it |
| Bayer.NeighbourMoved | bayer.py:3-75 | a neighbour of the moved site is the mirrored neighbour of the original site: same existence, same sample |
| Bayer.BilinearPattern | bayer.py:3-75 | over the corrected routine, in every layout each pixel keeps the site's sample in its colour's channel and fills each other channel with the truncated mean of the input's in-grid neighbours of that colour; every channel is a byte |
| Bayer.AsWrittenPattern | bayer.py:3-75 | as written, a pixel equals the bilinear rule exactly when its moved site is not a bottom-row green site of the flipped mosaic from column 2 on, or the two scalars of lines 334-335 happen to equal that site's red above and its own sample |
| Bayer.MovedBottomRow | bayer.py:13-75 | those moved sites are the green-on-blue sites of the input's last row (RGGB, GRBG) or first row (BGGR, GBRG), from column 2 on counted from the side the flips bring to column 0 |
| Bayer.DispatchCounterexample | bayer.py:3-11 | on the 2 x 6 mosaic of Findings, RGGB interpolation as written gives site (1, 2) red 2, and the corrected routine red 1 |
| Bayer.DecimatedPattern | bayer.py:3-75 | in every layout each channel of output pixel (bi, bj) is the truncated mean of the input block's samples of that colour |
| Bayer.BlockPixelSamples | bayer.py:3-75 | the decimated pixel of the moved block reads the input block's four samples in the layout's own places |

## Left out

- `test.py` is not part of this model. It loads images from disk, rescales floats to bytes
  and displays the results; it is I/O and plotting only.
- Floating point: each mean `(1.*a + 1.*b) / 2` is a float truncated by `np.uint8`. The model
  uses integer division instead. Both agree, since the operands are bytes and the means are
  non-negative and far from rounding error.
- numpy broadcasting covers only the shapes these routines use: a scalar, or a slice whose
  length matches the target's.
- Unsupported sizes are excluded with `requires` (`Supported`, `Dims`, `EvenDims`): odd
  dimensions, and for interpolation fewer than 2 rows or 4 columns. The model does not say
  what the code does with them. numpy raises a broadcasting error for many of them, and line
  335 reads column 2, so a mosaic with two columns raises an IndexError.
- Decimation.DecimationRggb: requires even dimensions. Some degenerate odd sizes, such as a
  single row of even width, happen to broadcast and return an empty image; those are not
  modelled.
- Bayer.BayerToRgb: an unknown layout name gives `None`, as in the code. No validation error
  is raised, because the code performs none.
- InterpolationFacts.OwnSampleKept: states the exception for the bottom-row green sites rather
  than an unconditional promise, because the code overwrites those samples.
- The Python `interpolation` argument's default value (`False`) is not modelled; the flag is
  always passed explicitly.

## Findings

| source | as written | input that shows it | evidently intended | confidence | as-written member | corrected member |
|---|---|---|---|---|---|---|
| bayer.py:334-335 | the red and green channels of every bottom-row green site from column 2 on get two scalars: the red sample at (H-2, W-2) and the green sample at (H-1, 2) | the 2 x 6 mosaic [[0,0,1,0,2,0],[0,0,0,0,0,0]]: site (1, 2) gets red 2, while its only red neighbour, (0, 2), holds 1 | the per-column slices `image_bayer[-2, 2::2]` and `image_bayer[-1, 2::2]`: the red right above each site and the site's own green | not executed | BottomRowFix.AsWrittenCounterexample | BottomRowFix.CorrectedMeetsIntended |
