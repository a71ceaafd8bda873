/** The numpy slice assignments the reconstruction routines are written in:
    `result[rows, cols, ch] = expr`, where `rows` and `cols` each select one index or a
    stride-2 slice of the H x W grid, and `expr` is one slice of the mosaic or the mean of two
    to four slices of the mosaic (`(1.*a + 1.*b) / 2` and so on).

    The meaning of a list of such assignments is given twice: by `Painted`, a function that
    says what one output cell holds after the list has run, and by `Run`, a method that
    executes the list in order on an H x W x 3 buffer. */
module Slices {
  import opened Images

  /** One axis of an index expression on a 2-D array:
      `k` (one index; the axis is dropped), `start:stop:2`, or `start::2`. */
  datatype Sel = At(k: int) | Range(start: int, stop: int) | From(start: int)

  /** `image_bayer[rows, cols]`. */
  datatype Plane = Plane(rows: Sel, cols: Sel)

  /** The right-hand sides that occur: a plain slice, or the float mean of two, three or four
      slices. The stored float is truncated to uint8 at the end, so a mean is kept as its
      integer quotient. */
  datatype Expr =
    | Copy(p: Plane)
    | Mean2(p1: Plane, p2: Plane)
    | Mean3(p1: Plane, p2: Plane, p3: Plane)
    | Mean4(p1: Plane, p2: Plane, p3: Plane, p4: Plane)

  /** `result[rows, cols, ch] = rhs`. */
  datatype Assign = Assign(rows: Sel, cols: Sel, ch: nat, rhs: Expr)

  function Operands(e: Expr): seq<Plane> {
    match e
    case Copy(p) => [p]
    case Mean2(p1, p2) => [p1, p2]
    case Mean3(p1, p2, p3) => [p1, p2, p3]
    case Mean4(p1, p2, p3, p4) => [p1, p2, p3, p4]
  }

  /** A negative index counts from the end of an axis of length n. */
  function Norm(k: int, n: nat): int {
    if k < 0 then k + n else k
  }

  /** A slice bound is normalised like an index and then clamped into 0..n. */
  function Bound(k: int, n: nat): nat {
    if k < 0 then (if k + n < 0 then 0 else k + n) else if k > n then n else k
  }

  /** The first index a selection picks (for a slice, when it picks any). */
  function First(s: Sel, n: nat): int {
    match s
    case At(k) => Norm(k, n)
    case Range(a, _) => Bound(a, n)
    case From(a) => Bound(a, n)
  }

  /** The exclusive end of a slice. */
  function Stop(s: Sel, n: nat): nat
    requires !s.At?
  {
    match s
    case Range(_, b) => Bound(b, n)
    case From(_) => n
  }

  /** How many indices a stride-2 slice picks. */
  function Len(s: Sel, n: nat): nat
    requires !s.At?
  {
    if Stop(s, n) > First(s, n) then (Stop(s, n) - First(s, n) + 1) / 2 else 0
  }

  /** numpy accepts a single index k on an axis of length n only when -n <= k < n
      (otherwise it raises IndexError); a slice is always accepted. */
  predicate Valid(s: Sel, n: nat) {
    s.At? ==> -(n as int) <= s.k < n
  }

  /** Whether index x of an axis of length n is selected. */
  predicate Picks(s: Sel, n: nat, x: int) {
    match s
    case At(k) => x == Norm(k, n)
    case _ => First(s, n) <= x < Stop(s, n) && (x - First(s, n)) % 2 == 0
  }

  /** An operand axis lines up with the target axis: both are single indices, or both are
      slices of the same length (numpy pairs their elements in order). */
  predicate AxisFits(src: Sel, dst: Sel, n: nat) {
    Valid(src, n) && src.At? == dst.At? && (!src.At? ==> Len(src, n) == Len(dst, n))
  }

  /** An operand numpy can assign to the target without a broadcasting error: a scalar
      (broadcast to every target cell), or a slice whose axes line up with the target's.
      numpy accepts more shapes than these; these are the ones the routines use. */
  predicate Fits(p: Plane, a: Assign, h: nat, w: nat) {
    || (p.rows.At? && p.cols.At? && Valid(p.rows, h) && Valid(p.cols, w))
    || (AxisFits(p.rows, a.rows, h) && AxisFits(p.cols, a.cols, w))
  }

  /** The assignment runs on an h x w mosaic and an h x w x 3 buffer without an error. */
  predicate WellFormed(a: Assign, h: nat, w: nat) {
    Valid(a.rows, h) && Valid(a.cols, w) && a.ch < 3 &&
    forall p <- Operands(a.rhs) :: Fits(p, a, h, w)
  }

  /** The same condition operand by operand, without the quantifier. */
  predicate FitsEach(a: Assign, h: nat, w: nat) {
    Valid(a.rows, h) && Valid(a.cols, w) && a.ch < 3 &&
    match a.rhs
    case Copy(p) => Fits(p, a, h, w)
    case Mean2(p1, p2) => Fits(p1, a, h, w) && Fits(p2, a, h, w)
    case Mean3(p1, p2, p3) => Fits(p1, a, h, w) && Fits(p2, a, h, w) && Fits(p3, a, h, w)
    case Mean4(p1, p2, p3, p4) =>
      Fits(p1, a, h, w) && Fits(p2, a, h, w) && Fits(p3, a, h, w) && Fits(p4, a, h, w)
  }

  lemma FitsEachWellFormed(a: Assign, h: nat, w: nat)
    requires FitsEach(a, h, w)
    ensures WellFormed(a, h, w)
  {
  }

  predicate AllWellFormed(prog: seq<Assign>, h: nat, w: nat) {
    forall k :: 0 <= k < |prog| ==> WellFormed(prog[k], h, w)
  }

  /** Whether the assignment writes channel c of output cell (i, j). */
  predicate Writes(a: Assign, h: nat, w: nat, i: int, j: int, c: nat) {
    a.ch == c && Picks(a.rows, h, i) && Picks(a.cols, w, j)
  }

  /** The operand index that target index x reads on one axis: the fixed index of a scalar
      axis, or the element of the operand slice in the same position as x in the target's. */
  function Follow(src: Sel, dst: Sel, n: nat, x: int): int {
    match src
    case At(k) => Norm(k, n)
    case _ => First(src, n) + (x - First(dst, n))
  }

  lemma FollowInBounds(src: Sel, dst: Sel, n: nat, x: int)
    requires Valid(src, n)
    requires src.At? || AxisFits(src, dst, n)
    requires Picks(dst, n, x)
    ensures 0 <= Follow(src, dst, n, x) < n
  {
    if !src.At? {
      var d := (x - First(dst, n)) / 2;
      assert x == First(dst, n) + 2 * d;
      assert d < Len(dst, n);
    }
  }

  /** The mosaic sample that operand p contributes to output cell (i, j). */
  function Sample(img: Mosaic, h: nat, w: nat, p: Plane, a: Assign, i: int, j: int): Byte
    requires HasShape(img, h, w)
    requires Fits(p, a, h, w)
    requires Picks(a.rows, h, i) && Picks(a.cols, w, j)
  {
    FollowInBounds(p.rows, a.rows, h, i);
    FollowInBounds(p.cols, a.cols, w, j);
    img[Follow(p.rows, a.rows, h, i)][Follow(p.cols, a.cols, w, j)]
  }

  /** The value the assignment stores in cell (i, j): the truncated mean of its operands. */
  function Eval(img: Mosaic, h: nat, w: nat, a: Assign, i: int, j: int): int
    requires HasShape(img, h, w) && WellFormed(a, h, w)
    requires Picks(a.rows, h, i) && Picks(a.cols, w, j)
  {
    match a.rhs
    case Copy(p) => Sample(img, h, w, p, a, i, j)
    case Mean2(p1, p2) =>
      (Sample(img, h, w, p1, a, i, j) + Sample(img, h, w, p2, a, i, j)) / 2
    case Mean3(p1, p2, p3) =>
      (Sample(img, h, w, p1, a, i, j) + Sample(img, h, w, p2, a, i, j)
       + Sample(img, h, w, p3, a, i, j)) / 3
    case Mean4(p1, p2, p3, p4) =>
      (Sample(img, h, w, p1, a, i, j) + Sample(img, h, w, p2, a, i, j)
       + Sample(img, h, w, p3, a, i, j) + Sample(img, h, w, p4, a, i, j)) / 4
  }

  /** What channel c of output cell (i, j) holds after the assignments `prog` have run, in
      order, on a zero buffer: the value of the last assignment that writes it, or 0. */
  function Painted(img: Mosaic, h: nat, w: nat, prog: seq<Assign>, i: int, j: int, c: nat): int
    requires HasShape(img, h, w) && AllWellFormed(prog, h, w)
  {
    if |prog| == 0 then 0
    else
      var a := prog[|prog| - 1];
      if Writes(a, h, w, i, j, c) then Eval(img, h, w, a, i, j)
      else Painted(img, h, w, prog[..|prog| - 1], i, j, c)
  }

  /** The last write wins: if assignment k writes the cell and no later one does, the cell
      holds what assignment k stored. */
  lemma {:induction false} LastWriteWins(img: Mosaic, h: nat, w: nat, prog: seq<Assign>, k: nat,
                                         i: int, j: int, c: nat)
    requires HasShape(img, h, w) && AllWellFormed(prog, h, w)
    requires k < |prog| && Writes(prog[k], h, w, i, j, c)
    requires forall m :: k < m < |prog| ==> !Writes(prog[m], h, w, i, j, c)
    ensures Painted(img, h, w, prog, i, j, c) == Eval(img, h, w, prog[k], i, j)
  {
    if k < |prog| - 1 {
      var init := prog[..|prog| - 1];
      assert init[k] == prog[k];
      assert AllWellFormed(init, h, w) by {
        forall m | 0 <= m < |init| ensures WellFormed(init[m], h, w) {
          assert init[m] == prog[m];
        }
      }
      forall m | k < m < |init| ensures !Writes(init[m], h, w, i, j, c) {
        assert init[m] == prog[m];
      }
      LastWriteWins(img, h, w, init, k, i, j, c);
    }
  }

  /** Executes `result[rows, cols, ch] = rhs` for each assignment of `prog`, in order, on the
      buffer `res`; each assignment is one simultaneous update of the cells it selects. */
  method Run(res: array3<int>, img: Mosaic, prog: seq<Assign>)
    requires HasShape(img, res.Length0, res.Length1) && res.Length2 == 3
    requires AllWellFormed(prog, res.Length0, res.Length1)
    requires forall i, j, c :: 0 <= i < res.Length0 && 0 <= j < res.Length1 && 0 <= c < 3 ==> res[i, j, c] == 0
    modifies res
    ensures forall i, j, c :: 0 <= i < res.Length0 && 0 <= j < res.Length1 && 0 <= c < 3 ==>
      res[i, j, c] == Painted(img, res.Length0, res.Length1, prog, i, j, c)
  {
    var h, w := res.Length0, res.Length1;
    var n := 0;
    while n < |prog|
      invariant 0 <= n <= |prog|
      invariant forall i, j, c :: 0 <= i < h && 0 <= j < w && 0 <= c < 3 ==>
        res[i, j, c] == Painted(img, h, w, prog[..n], i, j, c)
    {
      var a := prog[n];
      ghost var done := prog[..n + 1];
      assert AllWellFormed(done, h, w) by {
        forall m | 0 <= m < |done| ensures WellFormed(done[m], h, w) {
          assert done[m] == prog[m];
        }
      }
      assert done[..n] == prog[..n];
      forall i, j | 0 <= i < h && 0 <= j < w && Picks(a.rows, h, i) && Picks(a.cols, w, j) {
        res[i, j, a.ch] := Eval(img, h, w, a, i, j);
      }
      n := n + 1;
    }
    assert prog[..n] == prog;
  }
}
