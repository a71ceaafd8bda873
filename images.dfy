/** Pixel buffers: the single-channel Bayer mosaic that comes in, the RGB image that goes
    out, and the two axis reversals (numpy's `fliplr` and `flipud`) used to re-orient them. */
module Images {

  /** An unsigned 8-bit sample (numpy `uint8`). */
  type Byte = x: int | 0 <= x < 256

  /** A single-channel mosaic, row by row. */
  type Mosaic = seq<seq<Byte>>

  /** One output pixel; channel 0 is red, 1 green, 2 blue. */
  datatype Rgb = Rgb(r: int, g: int, b: int) {
    function Channel(c: nat): int
      requires c < 3
    {
      if c == 0 then r else if c == 1 then g else b
    }
  }

  /** The colour a mosaic site records in the canonical RGGB layout, from the parity of its row
      and column: red, green on a red row, green on a blue row, blue. */
  datatype Phase = Red | GreenOnRed | GreenOnBlue | Blue

  function PhaseAt(i: nat, j: nat): Phase {
    if i % 2 == 0 then (if j % 2 == 0 then Red else GreenOnRed)
    else (if j % 2 == 0 then GreenOnBlue else Blue)
  }

  /** The channel a site of phase p records: 0 red, 1 green, 2 blue. */
  function ChannelOf(p: Phase): (c: nat)
    ensures c < 3
    ensures c == 0 <==> p == Red
    ensures c == 2 <==> p == Blue
  {
    match p
    case Red => 0
    case GreenOnRed => 1
    case GreenOnBlue => 1
    case Blue => 2
  }

  /** An H x W x 3 image, row by row. */
  type RgbImage = seq<seq<Rgb>>

  function Width<T>(g: seq<seq<T>>): nat {
    if |g| == 0 then 0 else |g[0]|
  }

  /** A 2-D buffer: every row has the same width (numpy arrays are always rectangular). */
  predicate IsGrid<T>(g: seq<seq<T>>) {
    forall i :: 0 <= i < |g| ==> |g[i]| == Width(g)
  }

  /** g has h rows of w entries each. */
  predicate HasShape<T>(g: seq<seq<T>>, h: nat, w: nat) {
    |g| == h && forall i :: 0 <= i < |g| ==> |g[i]| == w
  }

  /** Both dimensions are even: every 2 x 2 tile of the Bayer pattern is complete. */
  predicate EvenDims<T>(g: seq<seq<T>>) {
    IsGrid(g) && |g| % 2 == 0 && Width(g) % 2 == 0
  }

  /** True when every channel of every pixel fits in a uint8. */
  predicate IsByteImage(g: RgbImage) {
    forall i, j, c :: 0 <= i < |g| && 0 <= j < |g[i]| && 0 <= c < 3 ==> 0 <= g[i][j].Channel(c) < 256
  }

  function Reverse<T>(s: seq<T>): seq<T> {
    seq(|s|, k requires 0 <= k < |s| => s[|s| - 1 - k])
  }

  /** `np.fliplr`: reverse the column axis (axis 1); rows and channels stay where they are. */
  function FlipLR<T>(g: seq<seq<T>>): seq<seq<T>> {
    seq(|g|, i requires 0 <= i < |g| => Reverse(g[i]))
  }

  /** `np.flipud`: reverse the row axis (axis 0). */
  function FlipUD<T>(g: seq<seq<T>>): seq<seq<T>> {
    Reverse(g)
  }

  lemma FlipLRShape<T>(g: seq<seq<T>>)
    requires IsGrid(g)
    ensures IsGrid(FlipLR(g)) && |FlipLR(g)| == |g| && Width(FlipLR(g)) == Width(g)
    ensures forall i, j :: 0 <= i < |g| && 0 <= j < Width(g) ==> FlipLR(g)[i][j] == g[i][Width(g) - 1 - j]
  {
  }

  lemma FlipUDShape<T>(g: seq<seq<T>>)
    requires IsGrid(g)
    ensures IsGrid(FlipUD(g)) && |FlipUD(g)| == |g| && Width(FlipUD(g)) == Width(g)
    ensures forall i, j :: 0 <= i < |g| && 0 <= j < Width(g) ==> FlipUD(g)[i][j] == g[|g| - 1 - i][j]
  {
  }

  /** Reversing the columns twice gives back the buffer exactly. */
  lemma FlipLRInvolution<T>(g: seq<seq<T>>)
    ensures FlipLR(FlipLR(g)) == g
  {
    forall i | 0 <= i < |g|
      ensures FlipLR(FlipLR(g))[i] == g[i]
    {
      assert Reverse(Reverse(g[i])) == g[i];
    }
  }

  /** Reversing the rows twice gives back the buffer exactly. */
  lemma FlipUDInvolution<T>(g: seq<seq<T>>)
    ensures FlipUD(FlipUD(g)) == g
  {
    assert Reverse(Reverse(g)) == g;
  }

  /** The two reversals commute: the half-turn the BGGR layout is brought into RGGB with is one
      map whichever flip goes first, and so is its own inverse. */
  lemma FlipsCommute<T>(g: seq<seq<T>>)
    ensures FlipLR(FlipUD(g)) == FlipUD(FlipLR(g))
  {
    forall i | 0 <= i < |g|
      ensures FlipLR(FlipUD(g))[i] == FlipUD(FlipLR(g))[i]
    {
    }
  }
}
