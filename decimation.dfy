/** Half-resolution reconstruction of an RGGB mosaic (`decimation_rggb`, bayer.py:77-99):
    every 2 x 2 block of the mosaic becomes one RGB pixel holding the block's red sample, the
    truncated mean of its two green samples, and its blue sample. */
module Decimation {
  import opened Images

  /** Where, inside a 2 x 2 block, the RGGB layout puts each phase: (row, column) offsets. */
  function PhaseOffset(p: Phase): (d: (nat, nat))
    ensures d.0 < 2 && d.1 < 2
  {
    match p
    case Red => (0, 0)
    case GreenOnRed => (0, 1)
    case GreenOnBlue => (1, 0)
    case Blue => (1, 1)
  }

  /** In every block, the site at offset (dr, dc) records phase p exactly when (dr, dc) is
      `PhaseOffset(p)`: each block holds one sample of each phase. */
  lemma PhaseOffsetExact(bi: nat, bj: nat, dr: nat, dc: nat, p: Phase)
    requires dr < 2 && dc < 2
    ensures PhaseAt(2 * bi + dr, 2 * bj + dc) == p <==> (dr, dc) == PhaseOffset(p)
  {
    assert (2 * bi + dr) % 2 == dr && (2 * bj + dc) % 2 == dc;
  }

  /** The sample of block (bi, bj) that records phase p. */
  function BlockSample(img: Mosaic, bi: nat, bj: nat, p: Phase): Byte
    requires EvenDims(img) && bi < |img| / 2 && bj < Width(img) / 2
  {
    img[2 * bi + PhaseOffset(p).0][2 * bj + PhaseOffset(p).1]
  }

  /** The output pixel of block (bi, bj). */
  function BlockPixel(img: Mosaic, bi: nat, bj: nat): Rgb
    requires EvenDims(img) && bi < |img| / 2 && bj < Width(img) / 2
  {
    Rgb(BlockSample(img, bi, bj, Red),
        (BlockSample(img, bi, bj, GreenOnRed) as int + BlockSample(img, bi, bj, GreenOnBlue)) / 2,
        BlockSample(img, bi, bj, Blue))
  }

  /** The decimated image: H/2 rows of W/2 pixels. */
  function Decimate(img: Mosaic): (out: RgbImage)
    requires EvenDims(img)
    ensures |out| == |img| / 2 && IsGrid(out) && (|out| > 0 ==> Width(out) == Width(img) / 2)
  {
    seq(|img| / 2, bi requires 0 <= bi < |img| / 2 =>
      seq(Width(img) / 2, bj requires 0 <= bj < Width(img) / 2 => BlockPixel(img, bi, bj)))
  }

  /** The stride-2 slice of the mosaic holding phase p: `image_bayer[::2, ::2]` for red,
      `image_bayer[1::2, 1::2]` for blue, one entry per block. */
  function PhaseSlice(img: Mosaic, p: Phase): (v: seq<seq<int>>)
    requires EvenDims(img)
    ensures |v| == |img| / 2 && forall bi :: 0 <= bi < |v| ==> |v[bi]| == Width(img) / 2
  {
    seq(|img| / 2, bi requires 0 <= bi < |img| / 2 =>
      seq(Width(img) / 2, bj requires 0 <= bj < Width(img) / 2 => BlockSample(img, bi, bj, p) as int))
  }

  /** The green plane `(1. * g01 + 1. * g10) / 2`, truncated per block. */
  function GreenMean(img: Mosaic): (v: seq<seq<int>>)
    requires EvenDims(img)
    ensures |v| == |img| / 2 && forall bi :: 0 <= bi < |v| ==> |v[bi]| == Width(img) / 2
  {
    seq(|img| / 2, bi requires 0 <= bi < |img| / 2 =>
      seq(Width(img) / 2, bj requires 0 <= bj < Width(img) / 2 =>
        (BlockSample(img, bi, bj, GreenOnRed) as int + BlockSample(img, bi, bj, GreenOnBlue)) / 2))
  }

  /** `res[:, :, k] = plane`: channel plane k is overwritten and the other planes are kept. */
  method SetChannel(res: array3<int>, k: nat, plane: seq<seq<int>>)
    requires k < res.Length2 && |plane| == res.Length0
    requires forall bi :: 0 <= bi < |plane| ==> |plane[bi]| == res.Length1
    modifies res
    ensures forall bi, bj :: 0 <= bi < res.Length0 && 0 <= bj < res.Length1 ==> res[bi, bj, k] == plane[bi][bj]
    ensures forall bi, bj, c :: 0 <= bi < res.Length0 && 0 <= bj < res.Length1 && 0 <= c < res.Length2 && c != k ==>
      res[bi, bj, c] == old(res[bi, bj, c])
  {
    forall bi, bj | 0 <= bi < res.Length0 && 0 <= bj < res.Length1 {
      res[bi, bj, k] := plane[bi][bj];
    }
  }

  /** `decimation_rggb`: a zero (H/2) x (W/2) x 3 buffer whose three channel planes are
      assigned in turn from the stride-2 slices of the mosaic. */
  method DecimationRggb(img: Mosaic) returns (res: array3<int>)
    requires EvenDims(img)
    ensures fresh(res)
    ensures res.Length0 == |img| / 2 && res.Length1 == Width(img) / 2 && res.Length2 == 3
    ensures forall bi, bj, c :: 0 <= bi < res.Length0 && 0 <= bj < res.Length1 && 0 <= c < 3 ==>
      res[bi, bj, c] == Decimate(img)[bi][bj].Channel(c)
  {
    res := new int[|img| / 2, Width(img) / 2, 3]((_, _, _) => 0);
    SetChannel(res, 0, PhaseSlice(img, Red));
    SetChannel(res, 1, GreenMean(img));
    SetChannel(res, 2, PhaseSlice(img, Blue));
  }

  /** Red and blue are copied exactly; green lies between the block's two green samples and
      so is a byte: the final `np.uint8` conversion keeps every value as it is. */
  lemma DecimatedChannels(img: Mosaic, bi: nat, bj: nat)
    requires EvenDims(img) && bi < |img| / 2 && bj < Width(img) / 2
    ensures Decimate(img)[bi][bj].r == img[2 * bi][2 * bj]
    ensures Decimate(img)[bi][bj].b == img[2 * bi + 1][2 * bj + 1]
    ensures var g1, g2 := img[2 * bi][2 * bj + 1], img[2 * bi + 1][2 * bj];
      (g1 <= g2 ==> g1 <= Decimate(img)[bi][bj].g <= g2) &&
      (g2 <= g1 ==> g2 <= Decimate(img)[bi][bj].g <= g1)
    ensures forall c :: 0 <= c < 3 ==> 0 <= Decimate(img)[bi][bj].Channel(c) < 256
  {
  }

  /** The 4 x 4 mosaic 10, 20, ..., 160 (row by row) decimates to
      [[(10, 35, 60), (30, 55, 80)], [(90, 115, 140), (110, 135, 160)]]. */
  lemma DecimationExample(img: Mosaic)
    requires img == [[10, 20, 30, 40], [50, 60, 70, 80], [90, 100, 110, 120], [130, 140, 150, 160]]
    ensures EvenDims(img)
    ensures Decimate(img) == [[Rgb(10, 35, 60), Rgb(30, 55, 80)], [Rgb(90, 115, 140), Rgb(110, 135, 160)]]
  {
    assert EvenDims(img);
    var out := Decimate(img);
    assert out[0] == [Rgb(10, 35, 60), Rgb(30, 55, 80)];
    assert out[1] == [Rgb(90, 115, 140), Rgb(110, 135, 160)];
  }
}
