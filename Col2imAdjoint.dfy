/** col2im is the adjoint of im2col: for every plane p and every block of
    patch cells t, summing p against col2im(t) pixel by pixel gives the same
    as summing im2col(p) against t cell by cell.  That is what makes col2im
    the backward pass of an im2col-based convolution.  When the windows tile
    the image (stride equal to the kernel size, no dilation and no leading
    padding), every pixel is read exactly once and col2im undoes im2col. */
module Col2imAdjoint {
  import opened Im2colSpec
  import MixedRadix

  // ----- sums over the pixels of a plane -----

  /** X(r, 0) + ... + X(r, n - 1). */
  function RowSum(r: int, n: nat, X: (int, int) -> real): real
  {
    if n == 0 then 0.0 else RowSum(r, n - 1, X) + X(r, n - 1)
  }

  /** The sum of X over rows 0 .. n - 1 and columns 0 .. w - 1. */
  function PlaneSum(n: nat, w: nat, X: (int, int) -> real): real
  {
    if n == 0 then 0.0 else PlaneSum(n - 1, w, X) + RowSum(n - 1, w, X)
  }

  lemma {:induction false} RowSumAdd(r: int, n: nat, X: (int, int) -> real, Y: (int, int) -> real, Z: (int, int) -> real)
    requires forall c :: 0 <= c < n ==> Z(r, c) == X(r, c) + Y(r, c)
    ensures RowSum(r, n, Z) == RowSum(r, n, X) + RowSum(r, n, Y)
  {
    if n > 0 {
      RowSumAdd(r, n - 1, X, Y, Z);
    }
  }

  /** Summing over the plane is additive in the summand. */
  lemma {:induction false} PlaneSumAdd(h: nat, w: nat, X: (int, int) -> real, Y: (int, int) -> real, Z: (int, int) -> real)
    requires forall r, c :: 0 <= r < h && 0 <= c < w ==> Z(r, c) == X(r, c) + Y(r, c)
    ensures PlaneSum(h, w, Z) == PlaneSum(h, w, X) + PlaneSum(h, w, Y)
  {
    if h > 0 {
      PlaneSumAdd(h - 1, w, X, Y, Z);
      RowSumAdd(h - 1, w, X, Y, Z);
    }
  }

  lemma {:induction false} RowSumExt(r: int, n: nat, X: (int, int) -> real, Y: (int, int) -> real)
    requires forall c :: 0 <= c < n ==> X(r, c) == Y(r, c)
    ensures RowSum(r, n, X) == RowSum(r, n, Y)
  {
    if n > 0 {
      RowSumExt(r, n - 1, X, Y);
    }
  }

  /** Summands that agree on the plane have the same sum. */
  lemma {:induction false} PlaneSumExt(h: nat, w: nat, X: (int, int) -> real, Y: (int, int) -> real)
    requires forall r, c :: 0 <= r < h && 0 <= c < w ==> X(r, c) == Y(r, c)
    ensures PlaneSum(h, w, X) == PlaneSum(h, w, Y)
  {
    if h > 0 {
      PlaneSumExt(h - 1, w, X, Y);
      RowSumExt(h - 1, w, X, Y);
    }
  }

  lemma {:induction false} RowSumPoint(r: int, n: nat, X: (int, int) -> real, c0: int, v: real)
    requires forall c :: 0 <= c < n ==> X(r, c) == if c == c0 then v else 0.0
    ensures RowSum(r, n, X) == if 0 <= c0 < n then v else 0.0
  {
    if n > 0 {
      RowSumPoint(r, n - 1, X, c0, v);
    }
  }

  /** A summand that is v at (r0, c0) and 0 elsewhere sums to v when
      (r0, c0) lies on the plane and to 0 otherwise. */
  lemma {:induction false} PlaneSumPoint(h: nat, w: nat, X: (int, int) -> real, r0: int, c0: int, v: real)
    requires forall r, c :: 0 <= r < h && 0 <= c < w ==> X(r, c) == if r == r0 && c == c0 then v else 0.0
    ensures PlaneSum(h, w, X) == if 0 <= r0 < h && 0 <= c0 < w then v else 0.0
  {
    if h > 0 {
      PlaneSumPoint(h - 1, w, X, r0, c0, v);
      if h - 1 == r0 {
        RowSumPoint(h - 1, w, X, c0, v);
      } else {
        RowSumPoint(h - 1, w, X, -1, v);
      }
    }
  }

  /** A summand that is 0 on the plane sums to 0. */
  lemma PlaneSumZero(h: nat, w: nat, X: (int, int) -> real)
    requires forall r, c :: 0 <= r < h && 0 <= c < w ==> X(r, c) == 0.0
    ensures PlaneSum(h, w, X) == 0.0
  {
    PlaneSumPoint(h, w, X, -1, -1, 0.0);
  }

  // ----- the two inner products -----

  /** The summand of the pixel-by-pixel inner product of p and q. */
  function PixelProduct(p: Plane, q: Plane): (int, int) -> real
  {
    (r: int, c: int) => PixelOrZero(p, r, c) * PixelOrZero(q, r, c)
  }

  /** The inner product of two h-by-w planes. */
  function PlaneDot(p: Plane, q: Plane, h: nat, w: nat): real
  {
    PlaneSum(h, w, PixelProduct(p, q))
  }

  /** Sum over ow < n of the products of cell (kh, kw, oh, ow) of a and t. */
  function DotOw(a: Taps, t: Taps, kh: nat, kw: nat, oh: nat, n: nat): real
  {
    if n == 0 then 0.0
    else DotOw(a, t, kh, kw, oh, n - 1) + CellOrZero(a, kh, kw, oh, n - 1) * CellOrZero(t, kh, kw, oh, n - 1)
  }

  /** Sum over kw < n of DotOw over all output columns. */
  function DotKw(a: Taps, t: Taps, g: Geometry, kh: nat, oh: nat, n: nat): real
  {
    if n == 0 then 0.0 else DotKw(a, t, g, kh, oh, n - 1) + DotOw(a, t, kh, n - 1, oh, g.outW)
  }

  /** Sum over oh < n of DotKw over all kernel columns. */
  function DotOh(a: Taps, t: Taps, g: Geometry, kh: nat, n: nat): real
  {
    if n == 0 then 0.0 else DotOh(a, t, g, kh, n - 1) + DotKw(a, t, g, kh, n - 1, g.kW)
  }

  /** Sum over kh < n of DotOh over all output rows. */
  function DotKh(a: Taps, t: Taps, g: Geometry, n: nat): real
  {
    if n == 0 then 0.0 else DotKh(a, t, g, n - 1) + DotOh(a, t, g, n - 1, g.outH)
  }

  /** The cell-by-cell inner product of two blocks of patch cells. */
  function TapsDot(a: Taps, t: Taps, g: Geometry): real
  {
    DotKh(a, t, g, g.kH)
  }

  // ----- moving the pixel sum inside the col2im sums, level by level -----

  /** p weighted by SumOw, on the source row of (kh, oh) only. */
  function OwWeight(p: Plane, t: Taps, g: Geometry, kh: nat, kw: nat, oh: nat, n: nat): (int, int) -> real
  {
    (r: int, c: int) =>
      if SourceRow(g, kh, oh) == r then PixelOrZero(p, r, c) * SumOw(t, g, c, kh, kw, oh, n) else 0.0
  }

  /** p weighted by SumKw, on the source row of (kh, oh) only. */
  function KwWeight(p: Plane, t: Taps, g: Geometry, kh: nat, oh: nat, n: nat): (int, int) -> real
  {
    (r: int, c: int) =>
      if SourceRow(g, kh, oh) == r then PixelOrZero(p, r, c) * SumKw(t, g, c, kh, oh, n) else 0.0
  }

  /** p weighted by SumOh. */
  function OhWeight(p: Plane, t: Taps, g: Geometry, kh: nat, n: nat): (int, int) -> real
  {
    (r: int, c: int) => PixelOrZero(p, r, c) * SumOh(t, g, r, c, kh, n)
  }

  /** p weighted by SumKh. */
  function KhWeight(p: Plane, t: Taps, g: Geometry, n: nat): (int, int) -> real
  {
    (r: int, c: int) => PixelOrZero(p, r, c) * SumKh(t, g, r, c, n)
  }

  /** v at (r0, c0), 0 elsewhere. */
  function Point(r0: int, c0: int, v: real): (int, int) -> real
  {
    (r: int, c: int) => if r == r0 && c == c0 then v else 0.0
  }

  /** At one pixel: one more output column adds the product read at it
      when that column's source is this pixel. */
  lemma OwStep(p: Plane, t: Taps, g: Geometry, kh: nat, kw: nat, oh: nat, n: nat, r: int, c: int)
    requires n > 0
    ensures var row, col := SourceRow(g, kh, oh), SourceCol(g, kw, n - 1);
      OwWeight(p, t, g, kh, kw, oh, n)(r, c) ==
        OwWeight(p, t, g, kh, kw, oh, n - 1)(r, c) +
        Point(row, col, PixelOrZero(p, row, col) * CellOrZero(t, kh, kw, oh, n - 1))(r, c)
  {
    var col := SourceCol(g, kw, n - 1);
    var x := CellOrZero(t, kh, kw, oh, n - 1);
    var s := SumOw(t, g, c, kh, kw, oh, n - 1);
    var y := if col == c then x else 0.0;
    assert SumOw(t, g, c, kh, kw, oh, n) == s + y;
    Distribute2(PixelOrZero(p, r, c), s, y);
  }

  /** One more output column adds the single product read at it. */
  lemma OwSplit(p: Plane, t: Taps, g: Geometry, h: nat, w: nat, kh: nat, kw: nat, oh: nat, n: nat, v: real)
    requires n > 0
    requires v == PixelOrZero(p, SourceRow(g, kh, oh), SourceCol(g, kw, n - 1)) * CellOrZero(t, kh, kw, oh, n - 1)
    ensures PlaneSum(h, w, OwWeight(p, t, g, kh, kw, oh, n)) ==
      PlaneSum(h, w, OwWeight(p, t, g, kh, kw, oh, n - 1)) +
      PlaneSum(h, w, Point(SourceRow(g, kh, oh), SourceCol(g, kw, n - 1), v))
  {
    var X, Y, Z := OwWeight(p, t, g, kh, kw, oh, n - 1), Point(SourceRow(g, kh, oh), SourceCol(g, kw, n - 1), v), OwWeight(p, t, g, kh, kw, oh, n);
    forall r, c | 0 <= r < h && 0 <= c < w
      ensures Z(r, c) == X(r, c) + Y(r, c)
    {
      OwStep(p, t, g, kh, kw, oh, n, r, c);
    }
    PlaneSumAdd(h, w, X, Y, Z);
  }

  lemma {:induction false} AdjointOw(p: Plane, a: Taps, t: Taps, g: Geometry, h: nat, w: nat,
                                     kh: nat, kw: nat, oh: nat, n: nat)
    requires IsPlane(p, h, w) && ReadsFrom(a, p, g)
    requires kh < g.kH && kw < g.kW && oh < g.outH && n <= g.outW
    ensures PlaneSum(h, w, OwWeight(p, t, g, kh, kw, oh, n)) == DotOw(a, t, kh, kw, oh, n)
  {
    if n > 0 {
      AdjointOw(p, a, t, g, h, w, kh, kw, oh, n - 1);
      var row, col := SourceRow(g, kh, oh), SourceCol(g, kw, n - 1);
      var v := PixelOrZero(p, row, col) * CellOrZero(t, kh, kw, oh, n - 1);
      OwSplit(p, t, g, h, w, kh, kw, oh, n, v);
      PlaneSumPoint(h, w, Point(row, col, v), row, col, v);
      assert CellOrZero(a, kh, kw, oh, n - 1) == PixelOrZero(p, row, col);
    } else {
      PlaneSumZero(h, w, OwWeight(p, t, g, kh, kw, oh, 0));
    }
  }

  /** One more kernel column adds that column's SumOw weight. */
  lemma KwSplit(p: Plane, t: Taps, g: Geometry, h: nat, w: nat, kh: nat, oh: nat, n: nat)
    requires n > 0
    ensures PlaneSum(h, w, KwWeight(p, t, g, kh, oh, n)) ==
      PlaneSum(h, w, KwWeight(p, t, g, kh, oh, n - 1)) + PlaneSum(h, w, OwWeight(p, t, g, kh, n - 1, oh, g.outW))
  {
    var X, Y, Z := KwWeight(p, t, g, kh, oh, n - 1), OwWeight(p, t, g, kh, n - 1, oh, g.outW), KwWeight(p, t, g, kh, oh, n);
    forall r, c | 0 <= r < h && 0 <= c < w
      ensures Z(r, c) == X(r, c) + Y(r, c)
    {
      Distribute2(PixelOrZero(p, r, c), SumKw(t, g, c, kh, oh, n - 1), SumOw(t, g, c, kh, n - 1, oh, g.outW));
    }
    PlaneSumAdd(h, w, X, Y, Z);
  }

  lemma {:induction false} AdjointKw(p: Plane, a: Taps, t: Taps, g: Geometry, h: nat, w: nat,
                                     kh: nat, oh: nat, n: nat)
    requires IsPlane(p, h, w) && ReadsFrom(a, p, g)
    requires kh < g.kH && oh < g.outH && n <= g.kW
    ensures PlaneSum(h, w, KwWeight(p, t, g, kh, oh, n)) == DotKw(a, t, g, kh, oh, n)
  {
    if n > 0 {
      AdjointKw(p, a, t, g, h, w, kh, oh, n - 1);
      AdjointOw(p, a, t, g, h, w, kh, n - 1, oh, g.outW);
      KwSplit(p, t, g, h, w, kh, oh, n);
    } else {
      PlaneSumZero(h, w, KwWeight(p, t, g, kh, oh, 0));
    }
  }

  /** One more output row adds that row's SumKw weight. */
  lemma OhSplit(p: Plane, t: Taps, g: Geometry, h: nat, w: nat, kh: nat, n: nat)
    requires n > 0
    ensures PlaneSum(h, w, OhWeight(p, t, g, kh, n)) ==
      PlaneSum(h, w, OhWeight(p, t, g, kh, n - 1)) + PlaneSum(h, w, KwWeight(p, t, g, kh, n - 1, g.kW))
  {
    var X, Y, Z := OhWeight(p, t, g, kh, n - 1), KwWeight(p, t, g, kh, n - 1, g.kW), OhWeight(p, t, g, kh, n);
    forall r, c | 0 <= r < h && 0 <= c < w
      ensures Z(r, c) == X(r, c) + Y(r, c)
    {
      var k := SumKw(t, g, c, kh, n - 1, g.kW);
      var y := if SourceRow(g, kh, n - 1) == r then k else 0.0;
      Distribute2(PixelOrZero(p, r, c), SumOh(t, g, r, c, kh, n - 1), y);
    }
    PlaneSumAdd(h, w, X, Y, Z);
  }

  lemma {:induction false} AdjointOh(p: Plane, a: Taps, t: Taps, g: Geometry, h: nat, w: nat, kh: nat, n: nat)
    requires IsPlane(p, h, w) && ReadsFrom(a, p, g)
    requires kh < g.kH && n <= g.outH
    ensures PlaneSum(h, w, OhWeight(p, t, g, kh, n)) == DotOh(a, t, g, kh, n)
  {
    if n > 0 {
      AdjointOh(p, a, t, g, h, w, kh, n - 1);
      AdjointKw(p, a, t, g, h, w, kh, n - 1, g.kW);
      OhSplit(p, t, g, h, w, kh, n);
    } else {
      PlaneSumZero(h, w, OhWeight(p, t, g, kh, 0));
    }
  }

  /** One more kernel row adds that row's SumOh weight. */
  lemma KhSplit(p: Plane, t: Taps, g: Geometry, h: nat, w: nat, n: nat)
    requires n > 0
    ensures PlaneSum(h, w, KhWeight(p, t, g, n)) ==
      PlaneSum(h, w, KhWeight(p, t, g, n - 1)) + PlaneSum(h, w, OhWeight(p, t, g, n - 1, g.outH))
  {
    var X, Y, Z := KhWeight(p, t, g, n - 1), OhWeight(p, t, g, n - 1, g.outH), KhWeight(p, t, g, n);
    forall r, c | 0 <= r < h && 0 <= c < w
      ensures Z(r, c) == X(r, c) + Y(r, c)
    {
      Distribute2(PixelOrZero(p, r, c), SumKh(t, g, r, c, n - 1), SumOh(t, g, r, c, n - 1, g.outH));
    }
    PlaneSumAdd(h, w, X, Y, Z);
  }

  lemma {:induction false} AdjointKh(p: Plane, a: Taps, t: Taps, g: Geometry, h: nat, w: nat, n: nat)
    requires IsPlane(p, h, w) && ReadsFrom(a, p, g)
    requires n <= g.kH
    ensures PlaneSum(h, w, KhWeight(p, t, g, n)) == DotKh(a, t, g, n)
  {
    if n > 0 {
      AdjointKh(p, a, t, g, h, w, n - 1);
      AdjointOh(p, a, t, g, h, w, n - 1, g.outH);
      KhSplit(p, t, g, h, w, n);
    } else {
      PlaneSumZero(h, w, KhWeight(p, t, g, 0));
    }
  }

  lemma Distribute2(x: real, a: real, b: real)
    ensures x * (a + b) == x * a + x * b
  {
  }

  /** For any block `a` that reads from p as im2col(p) does, and any block
      t of patch cells: <p, col2im(t)> == <a, t>. */
  lemma Col2imAdjointOfReader(p: Plane, a: Taps, t: Taps, g: Geometry, h: nat, w: nat)
    requires IsPlane(p, h, w) && ReadsFrom(a, p, g)
    ensures PlaneDot(p, Col2imPlane(t, g, h, w), h, w) == TapsDot(a, t, g)
  {
    var q := Col2imPlane(t, g, h, w);
    forall r, c | 0 <= r < h && 0 <= c < w
      ensures PixelProduct(p, q)(r, c) == KhWeight(p, t, g, g.kH)(r, c)
    {
      Col2imPlaneAt(t, g, h, w, r, c);
    }
    PlaneSumExt(h, w, PixelProduct(p, q), KhWeight(p, t, g, g.kH));
    AdjointKh(p, a, t, g, h, w, g.kH);
  }

  /** col2im is the adjoint of im2col: for every h-by-w plane p and every
      block of patch cells t, the inner product of p with col2im(t) equals
      the inner product of im2col(p) with t. */
  lemma Col2imIsAdjoint(p: Plane, t: Taps, g: Geometry, h: nat, w: nat)
    requires IsPlane(p, h, w)
    ensures PlaneDot(p, Col2imPlane(t, g, h, w), h, w) == TapsDot(Im2colPlane(p, g), t, g)
  {
    Im2colReadsFrom(p, g);
    Col2imAdjointOfReader(p, Im2colPlane(p, g), t, g, h, w);
  }

  // ----- windows that tile the image -----

  /** Windows tile the rows: no dilation, stride equal to the kernel
      height, no leading padding. */
  predicate TilesRows(g: Geometry)
  {
    g.dH == 1 && g.sH == g.kH && g.kH >= 1 && g.padTop == 0
  }

  /** Windows tile the columns. */
  predicate TilesColumns(g: Geometry)
  {
    g.dW == 1 && g.sW == g.kW && g.kW >= 1 && g.padLeft == 0
  }

  /** With stride s, a row r below outH * s is read at kernel offset k < s
      exactly when k is r mod s. */
  lemma TiledOffset(r: nat, k: nat, s: nat, outH: nat)
    requires k < s && r < outH * s
    ensures OnGrid(r - k, s, outH) <==> r % s == k
  {
    var q, m := r / s, r % s;
    assert r == q * s + m;
    if m == k {
      MixedRadix.DivModUnique(q, 0, s);
      if q >= outH {
        MulAtLeast(q, outH, s);
      }
    }
    if OnGrid(r - k, s, outH) {
      var x := r - k;
      assert x == (x / s) * s;
      MixedRadix.DivModUnique(x / s, k, s);
    }
  }

  lemma MulAtLeast(q: nat, n: nat, s: nat)
    requires q >= n
    ensures q * s >= n * s
  {
  }

  lemma {:induction false} TiledCountKh(g: Geometry, r: nat, n: nat)
    requires TilesRows(g) && r < g.outH * g.sH && n <= g.kH
    ensures CountKh(g, r, n) == if r % g.sH < n then 1 else 0
  {
    if n > 0 {
      TiledCountKh(g, r, n - 1);
      CountOhIs(g, r, n - 1, g.outH);
      assert r + g.padTop - (n - 1) * g.dH == r - (n - 1);
      TiledOffset(r, n - 1, g.sH, g.outH);
    }
  }

  lemma {:induction false} TiledCountKw(g: Geometry, c: nat, n: nat)
    requires TilesColumns(g) && c < g.outW * g.sW && n <= g.kW
    ensures CountKw(g, c, n) == if c % g.sW < n then 1 else 0
  {
    if n > 0 {
      TiledCountKw(g, c, n - 1);
      CountOwIs(g, c, n - 1, g.outW);
      assert c + g.padLeft - (n - 1) * g.dW == c - (n - 1);
      TiledOffset(c, n - 1, g.sW, g.outW);
    }
  }

  /** When the windows tile the rows, every row they reach is read by
      exactly one (kernel row, output row) pair. */
  lemma TiledRowsCoveredOnce(g: Geometry, r: nat)
    requires TilesRows(g) && r < g.outH * g.sH
    ensures CoverH(g, r) == 1
  {
    TiledCountKh(g, r, g.kH);
  }

  /** The column counterpart of TiledRowsCoveredOnce. */
  lemma TiledColumnsCoveredOnce(g: Geometry, c: nat)
    requires TilesColumns(g) && c < g.outW * g.sW
    ensures CoverW(g, c) == 1
  {
    TiledCountKw(g, c, g.kW);
  }

  /** When the windows tile an image they fully reach, col2im(im2col(p))
      is p itself. */
  lemma TiledCol2imUndoesIm2col(p: Plane, g: Geometry, h: nat, w: nat)
    requires IsPlane(p, h, w) && TilesRows(g) && TilesColumns(g)
    requires h <= g.outH * g.sH && w <= g.outW * g.sW
    ensures Col2imPlane(Im2colPlane(p, g), g, h, w) == p
  {
    var q := Col2imPlane(Im2colPlane(p, g), g, h, w);
    Col2imOfIm2colPlane(p, g, h, w);
    forall r | 0 <= r < h
      ensures q[r] == p[r]
    {
      forall c | 0 <= c < w
        ensures q[r][c] == p[r][c]
      {
        TiledRowsCoveredOnce(g, r);
        TiledColumnsCoveredOnce(g, c);
      }
    }
  }
}
