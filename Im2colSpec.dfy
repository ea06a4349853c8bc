/** The meaning of im2col and col2im on 4-D images [batch][channel][row][col]
    and 6-D patch tensors [batch][channel][kh][kw][oh][ow].

    Output cell (kh, kw, oh, ow) of a channel reads the input pixel at row
    oh*sH + kh*dH - padTop and column ow*sW + kw*dW - padLeft, or 0 when that
    pixel lies outside the image.  col2im scatter-adds every patch cell back
    into the pixel it was read from; cells addressing pixels outside the image
    are dropped.  Pixel values are doubles, modelled as reals. */
module Im2colSpec {
  import MixedRadix

  type Plane = seq<seq<real>>
  type Image = seq<seq<Plane>>
  type Taps = seq<seq<seq<seq<real>>>>
  type Patches = seq<seq<Taps>>

  /** Kernel size, stride, leading padding, dilation and output size of one
      im2col/col2im call (height first, then width). */
  datatype Geometry = Geometry(
    kH: nat, kW: nat,
    sH: nat, sW: nat,
    padTop: int, padLeft: int,
    dH: nat, dW: nat,
    outH: nat, outW: nat)

  predicate IsPlane(p: Plane, h: nat, w: nat)
  {
    |p| == h && forall r :: 0 <= r < h ==> |p[r]| == w
  }

  predicate IsImage(img: Image, b: nat, c: nat, h: nat, w: nat)
  {
    |img| == b &&
    forall i :: 0 <= i < b ==>
      |img[i]| == c && forall j :: 0 <= j < c ==> IsPlane(img[i][j], h, w)
  }

  /** `t` is a [kH][kW][outH][outW] block of patch cells for geometry `g`. */
  predicate IsTaps(t: Taps, g: Geometry)
  {
    |t| == g.kH &&
    forall kh :: 0 <= kh < g.kH ==>
      |t[kh]| == g.kW &&
      forall kw :: 0 <= kw < g.kW ==>
        IsPlane(t[kh][kw], g.outH, g.outW)
  }

  predicate IsPatches(p: Patches, b: nat, c: nat, g: Geometry)
  {
    |p| == b &&
    forall i :: 0 <= i < b ==>
      |p[i]| == c && forall j :: 0 <= j < c ==> IsTaps(p[i][j], g)
  }

  /** Every channel of `p` is a block of patch cells for `g`. */
  predicate AllTaps(p: Patches, g: Geometry)
  {
    forall i, j :: 0 <= i < |p| && 0 <= j < |p[i]| ==> IsTaps(p[i][j], g)
  }

  /** k * step, written as repeated addition so that the solver unfolds it
      only on demand. */
  function Times(k: nat, step: nat): int
  {
    if k == 0 then 0 else Times(k - 1, step) + step
  }

  lemma {:induction false} TimesIsProduct(k: nat, step: nat)
    ensures Times(k, step) == k * step
  {
    if k > 0 {
      TimesIsProduct(k - 1, step);
    }
  }

  /** Image row read by kernel row kh at output row oh. */
  function SourceRow(g: Geometry, kh: nat, oh: nat): int
  {
    Times(oh, g.sH) + Times(kh, g.dH) - g.padTop
  }

  /** Image column read by kernel column kw at output column ow. */
  function SourceCol(g: Geometry, kw: nat, ow: nat): int
  {
    Times(ow, g.sW) + Times(kw, g.dW) - g.padLeft
  }

  /** The source row and column are the affine positions of the header. */
  lemma SourceIsAffine(g: Geometry, kh: nat, kw: nat, oh: nat, ow: nat)
    ensures SourceRow(g, kh, oh) == oh * g.sH + kh * g.dH - g.padTop
    ensures SourceCol(g, kw, ow) == ow * g.sW + kw * g.dW - g.padLeft
  {
    TimesIsProduct(oh, g.sH);
    TimesIsProduct(kh, g.dH);
    TimesIsProduct(ow, g.sW);
    TimesIsProduct(kw, g.dW);
  }

  /** A pixel of a plane, or 0 for a position in the padding. */
  function PixelOrZero(p: Plane, r: int, c: int): real
  {
    if 0 <= r < |p| && 0 <= c < |p[r]| then p[r][c] else 0.0
  }

  /** im2col of one channel. */
  function Im2colPlane(p: Plane, g: Geometry): (t: Taps)
    ensures IsTaps(t, g)
    ensures forall kh, kw, oh, ow ::
      0 <= kh < g.kH && 0 <= kw < g.kW && 0 <= oh < g.outH && 0 <= ow < g.outW ==>
        t[kh][kw][oh][ow] == PixelOrZero(p, SourceRow(g, kh, oh), SourceCol(g, kw, ow))
  {
    seq(g.kH, (kh: int) requires 0 <= kh < g.kH =>
      seq(g.kW, (kw: int) requires 0 <= kw < g.kW =>
        seq(g.outH, (oh: int) requires 0 <= oh < g.outH =>
          seq(g.outW, (ow: int) requires 0 <= ow < g.outW =>
            PixelOrZero(p, SourceRow(g, kh, oh), SourceCol(g, kw, ow))))))
  }

  /** im2col of a whole image: shape [batch, depth, kH, kW, outH, outW]. */
  function Im2col(img: Image, g: Geometry): (r: Patches)
    ensures |r| == |img|
    ensures forall b :: 0 <= b < |img| ==> |r[b]| == |img[b]|
    ensures forall b, c :: 0 <= b < |img| && 0 <= c < |img[b]| ==> r[b][c] == Im2colPlane(img[b][c], g)
  {
    seq(|img|, b requires 0 <= b < |img| =>
      seq(|img[b]|, c requires 0 <= c < |img[b]| => Im2colPlane(img[b][c], g)))
  }

  /** im2col of a [b, c, h, w] image has shape [b, c, kH, kW, outH, outW]. */
  lemma Im2colShape(img: Image, g: Geometry, b: nat, c: nat, h: nat, w: nat)
    requires IsImage(img, b, c, h, w)
    ensures IsPatches(Im2col(img, g), b, c, g)
    ensures AllTaps(Im2col(img, g), g)
  {
  }

  // ----- col2im: the four nested sums over (kh, oh, kw, ow) -----

  /** Patch cell (kh, kw, oh, ow) of a channel, or 0 outside its shape. */
  function CellOrZero(t: Taps, kh: int, kw: int, oh: int, ow: int): real
  {
    if 0 <= kh < |t| && 0 <= kw < |t[kh]| && 0 <= oh < |t[kh][kw]| && 0 <= ow < |t[kh][kw][oh]|
    then t[kh][kw][oh][ow]
    else 0.0
  }

  /** Sum over ow < n of the cells of row (kh, kw, oh) whose source column is w. */
  function SumOw(t: Taps, g: Geometry, w: int, kh: nat, kw: nat, oh: nat, n: nat): real
  {
    if n == 0 then 0.0
    else SumOw(t, g, w, kh, kw, oh, n - 1) +
         (if SourceCol(g, kw, n - 1) == w then CellOrZero(t, kh, kw, oh, n - 1) else 0.0)
  }

  /** Sum over kw < n of SumOw over all output columns. */
  function SumKw(t: Taps, g: Geometry, w: int, kh: nat, oh: nat, n: nat): real
  {
    if n == 0 then 0.0
    else SumKw(t, g, w, kh, oh, n - 1) + SumOw(t, g, w, kh, n - 1, oh, g.outW)
  }

  /** Sum over oh < n, keeping only output rows whose source row is h. */
  function SumOh(t: Taps, g: Geometry, h: int, w: int, kh: nat, n: nat): real
  {
    if n == 0 then 0.0
    else SumOh(t, g, h, w, kh, n - 1) +
         (if SourceRow(g, kh, n - 1) == h then SumKw(t, g, w, kh, n - 1, g.kW) else 0.0)
  }

  /** Sum over kh < n of SumOh over all output rows. */
  function SumKh(t: Taps, g: Geometry, h: int, w: int, n: nat): real
  {
    if n == 0 then 0.0
    else SumKh(t, g, h, w, n - 1) + SumOh(t, g, h, w, n - 1, g.outH)
  }

  /** col2im of one channel onto an h-by-w plane: every pixel receives the
      sum of the patch cells that were read from it. */
  function Col2imPlane(t: Taps, g: Geometry, h: nat, w: nat): (p: Plane)
    ensures IsPlane(p, h, w)
  {
    seq(h, r => seq(w, c => SumKh(t, g, r, c, g.kH)))
  }

  /** col2im of a whole patch tensor: shape [batch, depth, h, w]. */
  function Col2im(p: Patches, g: Geometry, h: nat, w: nat): (img: Image)
    ensures |img| == |p|
    ensures forall b :: 0 <= b < |p| ==> |img[b]| == |p[b]|
    ensures forall b, c :: 0 <= b < |p| && 0 <= c < |p[b]| ==> img[b][c] == Col2imPlane(p[b][c], g, h, w)
  {
    seq(|p|, b requires 0 <= b < |p| =>
      seq(|p[b]|, c requires 0 <= c < |p[b]| => Col2imPlane(p[b][c], g, h, w)))
  }

  // ----- how often col2im(im2col(image)) counts each pixel -----

  /** Output columns ow < n at which kernel column kw reads image column w. */
  function CountOw(g: Geometry, w: int, kw: nat, n: nat): nat
  {
    if n == 0 then 0
    else CountOw(g, w, kw, n - 1) + (if SourceCol(g, kw, n - 1) == w then 1 else 0)
  }

  /** Pairs (kw, ow) with kw < n that read image column w. */
  function CountKw(g: Geometry, w: int, n: nat): nat
  {
    if n == 0 then 0 else CountKw(g, w, n - 1) + CountOw(g, w, n - 1, g.outW)
  }

  /** Output rows oh < n at which kernel row kh reads image row h. */
  function CountOh(g: Geometry, h: int, kh: nat, n: nat): nat
  {
    if n == 0 then 0
    else CountOh(g, h, kh, n - 1) + (if SourceRow(g, kh, n - 1) == h then 1 else 0)
  }

  /** Pairs (kh, oh) with kh < n that read image row h. */
  function CountKh(g: Geometry, h: int, n: nat): nat
  {
    if n == 0 then 0 else CountKh(g, h, n - 1) + CountOh(g, h, n - 1, g.outH)
  }

  /** Number of patch columns that read image column w. */
  function CoverW(g: Geometry, w: int): nat
  {
    CountKw(g, w, g.kW)
  }

  /** Number of patch rows that read image row h. */
  function CoverH(g: Geometry, h: int): nat
  {
    CountKh(g, h, g.kH)
  }

  /** x is one of 0, s, 2s, ..., (n - 1)s. */
  predicate OnGrid(x: int, s: nat, n: nat)
    requires s >= 1
  {
    0 <= x && x % s == 0 && x / s < n
  }

  /** With a positive stride, kernel column kw reads image column w at most
      once, exactly when w + padLeft - kw*dW is a multiple of the stride
      that stays below n strides. */
  lemma {:induction false} CountOwIs(g: Geometry, w: int, kw: nat, n: nat)
    requires g.sW >= 1
    ensures CountOw(g, w, kw, n) == if OnGrid(w + g.padLeft - kw * g.dW, g.sW, n) then 1 else 0
  {
    if n > 0 {
      CountOwIs(g, w, kw, n - 1);
      var x := w + g.padLeft - kw * g.dW;
      SourceIsAffine(g, 0, kw, 0, n - 1);
      MixedRadix.DivModUnique(n - 1, 0, g.sW);
      if OnGrid(x, g.sW, n) && !OnGrid(x, g.sW, n - 1) {
        assert x == (x / g.sW) * g.sW;
      }
    }
  }

  /** The row counterpart of CountOwIs. */
  lemma {:induction false} CountOhIs(g: Geometry, h: int, kh: nat, n: nat)
    requires g.sH >= 1
    ensures CountOh(g, h, kh, n) == if OnGrid(h + g.padTop - kh * g.dH, g.sH, n) then 1 else 0
  {
    if n > 0 {
      CountOhIs(g, h, kh, n - 1);
      var x := h + g.padTop - kh * g.dH;
      SourceIsAffine(g, kh, 0, n - 1, 0);
      MixedRadix.DivModUnique(n - 1, 0, g.sH);
      if OnGrid(x, g.sH, n) && !OnGrid(x, g.sH, n - 1) {
        assert x == (x / g.sH) * g.sH;
      }
    }
  }

  /** Every in-range cell of `t` holds the pixel of `p` that im2col reads. */
  predicate ReadsFrom(t: Taps, p: Plane, g: Geometry)
  {
    forall kh: nat, kw: nat, oh: nat, ow: nat ::
      kh < g.kH && kw < g.kW && oh < g.outH && ow < g.outW ==>
        CellOrZero(t, kh, kw, oh, ow) == PixelOrZero(p, SourceRow(g, kh, oh), SourceCol(g, kw, ow))
  }

  lemma Im2colReadsFrom(p: Plane, g: Geometry)
    ensures ReadsFrom(Im2colPlane(p, g), p, g)
  {
  }

  /** v added to itself k times. */
  function Scale(v: real, k: nat): real
  {
    if k == 0 then 0.0 else Scale(v, k - 1) + v
  }

  lemma {:induction false} ScaleIsProduct(v: real, k: nat)
    ensures Scale(v, k) == v * (k as real)
  {
    if k > 0 {
      ScaleIsProduct(v, k - 1);
    }
  }

  lemma {:induction false} Distribute(v: real, a: nat, b: nat, c: nat)
    requires c == a + b
    ensures Scale(v, c) == Scale(v, a) + Scale(v, b)
  {
    if b > 0 {
      Distribute(v, a, b - 1, c - 1);
    }
  }

  lemma {:induction false} SumOwOfIm2col(p: Plane, t: Taps, g: Geometry, w: int, kh: nat, kw: nat, oh: nat, n: nat)
    requires ReadsFrom(t, p, g)
    requires kh < g.kH && kw < g.kW && oh < g.outH && n <= g.outW
    ensures SumOw(t, g, w, kh, kw, oh, n) ==
            Scale(PixelOrZero(p, SourceRow(g, kh, oh), w), CountOw(g, w, kw, n))
  {
    if n > 0 {
      SumOwOfIm2col(p, t, g, w, kh, kw, oh, n - 1);
      var v := PixelOrZero(p, SourceRow(g, kh, oh), w);
      var hit: nat := if SourceCol(g, kw, n - 1) == w then 1 else 0;
      assert (if SourceCol(g, kw, n - 1) == w then CellOrZero(t, kh, kw, oh, n - 1) else 0.0) == Scale(v, hit);
      Distribute(v, CountOw(g, w, kw, n - 1), hit, CountOw(g, w, kw, n));
    }
  }

  lemma {:induction false} SumKwScaled(t: Taps, g: Geometry, w: int, kh: nat, oh: nat, n: nat, v: real)
    requires forall kw :: 0 <= kw < n ==>
      SumOw(t, g, w, kh, kw, oh, g.outW) == Scale(v, CountOw(g, w, kw, g.outW))
    ensures SumKw(t, g, w, kh, oh, n) == Scale(v, CountKw(g, w, n))
  {
    if n > 0 {
      SumKwScaled(t, g, w, kh, oh, n - 1, v);
      Distribute(v, CountKw(g, w, n - 1), CountOw(g, w, n - 1, g.outW), CountKw(g, w, n));
    }
  }

  lemma {:induction false} SumOhScaled(t: Taps, g: Geometry, h: int, w: int, kh: nat, n: nat, v: real)
    requires forall oh :: 0 <= oh < n && SourceRow(g, kh, oh) == h ==>
      SumKw(t, g, w, kh, oh, g.kW) == v
    ensures SumOh(t, g, h, w, kh, n) == Scale(v, CountOh(g, h, kh, n))
  {
    if n > 0 {
      SumOhScaled(t, g, h, w, kh, n - 1, v);
      var hit: nat := if SourceRow(g, kh, n - 1) == h then 1 else 0;
      Distribute(v, CountOh(g, h, kh, n - 1), hit, CountOh(g, h, kh, n));
    }
  }

  lemma {:induction false} SumKhScaled(t: Taps, g: Geometry, h: int, w: int, n: nat, v: real)
    requires forall kh :: 0 <= kh < n ==>
      SumOh(t, g, h, w, kh, g.outH) == Scale(v, CountOh(g, h, kh, g.outH))
    ensures SumKh(t, g, h, w, n) == Scale(v, CountKh(g, h, n))
  {
    if n > 0 {
      SumKhScaled(t, g, h, w, n - 1, v);
      Distribute(v, CountKh(g, h, n - 1), CountOh(g, h, n - 1, g.outH), CountKh(g, h, n));
    }
  }

  lemma SumOwAtRow(p: Plane, t: Taps, g: Geometry, h: int, w: int, kh: nat, oh: nat)
    requires ReadsFrom(t, p, g)
    requires 0 <= h < |p| && 0 <= w < |p[h]|
    requires kh < g.kH && oh < g.outH && SourceRow(g, kh, oh) == h
    ensures forall kw :: 0 <= kw < g.kW ==>
      SumOw(t, g, w, kh, kw, oh, g.outW) == Scale(p[h][w], CountOw(g, w, kw, g.outW))
  {
    forall kw | 0 <= kw < g.kW
      ensures SumOw(t, g, w, kh, kw, oh, g.outW) == Scale(p[h][w], CountOw(g, w, kw, g.outW))
    {
      SumOwOfIm2col(p, t, g, w, kh, kw, oh, g.outW);
    }
  }

  lemma SumKwAtRow(p: Plane, t: Taps, g: Geometry, h: int, w: int, kh: nat, oh: nat)
    requires ReadsFrom(t, p, g)
    requires 0 <= h < |p| && 0 <= w < |p[h]|
    requires kh < g.kH && oh < g.outH && SourceRow(g, kh, oh) == h
    ensures SumKw(t, g, w, kh, oh, g.kW) == Scale(p[h][w], CoverW(g, w))
  {
    SumOwAtRow(p, t, g, h, w, kh, oh);
    SumKwScaled(t, g, w, kh, oh, g.kW, p[h][w]);
  }

  /** Every patch column read at a kernel row that hits image row h sums to
      p[h][w] times the column coverage of w. */
  lemma SumKwOfIm2col(p: Plane, t: Taps, g: Geometry, h: int, w: int, kh: nat)
    requires ReadsFrom(t, p, g)
    requires 0 <= h < |p| && 0 <= w < |p[h]|
    requires kh < g.kH
    ensures forall oh :: 0 <= oh < g.outH && SourceRow(g, kh, oh) == h ==>
      SumKw(t, g, w, kh, oh, g.kW) == Scale(p[h][w], CoverW(g, w))
  {
    forall oh | 0 <= oh < g.outH && SourceRow(g, kh, oh) == h
      ensures SumKw(t, g, w, kh, oh, g.kW) == Scale(p[h][w], CoverW(g, w))
    {
      SumKwAtRow(p, t, g, h, w, kh, oh);
    }
  }

  /** The col2im sum at pixel (h, w) of a patch tensor that reads from p
      (as im2col(p) does) is p[h][w] times its coverage. */
  lemma Col2imPixelOfIm2col(p: Plane, t: Taps, g: Geometry, h: int, w: int, v: real)
    requires ReadsFrom(t, p, g)
    requires 0 <= h < |p| && 0 <= w < |p[h]|
    requires v == Scale(p[h][w], CoverW(g, w))
    ensures SumKh(t, g, h, w, g.kH) == Scale(v, CoverH(g, h))
  {
    forall kh | 0 <= kh < g.kH
      ensures SumOh(t, g, h, w, kh, g.outH) == Scale(v, CountOh(g, h, kh, g.outH))
    {
      SumKwOfIm2col(p, t, g, h, w, kh);
      SumOhScaled(t, g, h, w, kh, g.outH, v);
    }
    SumKhScaled(t, g, h, w, g.kH, v);
  }

  /** col2im undoes im2col up to multiplicity: each pixel comes back
      multiplied by the number of patch cells that read it. */
  lemma Col2imOfIm2colPlane(p: Plane, g: Geometry, h: nat, w: nat)
    requires IsPlane(p, h, w)
    ensures forall r, c :: 0 <= r < h && 0 <= c < w ==>
      Col2imPlane(Im2colPlane(p, g), g, h, w)[r][c] ==
        p[r][c] * ((CoverH(g, r) * CoverW(g, c)) as real)
  {
    var t := Im2colPlane(p, g);
    Im2colReadsFrom(p, g);
    forall r, c | 0 <= r < h && 0 <= c < w
      ensures Col2imPlane(t, g, h, w)[r][c] == p[r][c] * ((CoverH(g, r) * CoverW(g, c)) as real)
    {
      Col2imPixelScaled(p, t, g, h, w, r, c);
    }
  }

  lemma Col2imPixelScaled(p: Plane, t: Taps, g: Geometry, h: nat, w: nat, r: nat, c: nat)
    requires ReadsFrom(t, p, g)
    requires IsPlane(p, h, w) && r < h && c < w
    ensures Col2imPlane(t, g, h, w)[r][c] ==
            p[r][c] * ((CoverH(g, r) * CoverW(g, c)) as real)
  {
    var x := p[r][c];
    Col2imPixelCovered(p, t, g, h, w, r, c, x);
    ScaleTwice(x, CoverW(g, c), CoverH(g, r));
  }

  lemma Col2imPixelCovered(p: Plane, t: Taps, g: Geometry, h: nat, w: nat, r: nat, c: nat, x: real)
    requires ReadsFrom(t, p, g)
    requires r < h && c < w && r < |p| && c < |p[r]| && x == p[r][c]
    ensures Col2imPlane(t, g, h, w)[r][c] == Scale(Scale(x, CoverW(g, c)), CoverH(g, r))
  {
    Col2imPlaneAt(t, g, h, w, r, c);
    Col2imPixelOfIm2col(p, t, g, r, c, Scale(x, CoverW(g, c)));
  }

  lemma Col2imPlaneAt(t: Taps, g: Geometry, h: nat, w: nat, r: nat, c: nat)
    requires r < h && c < w
    ensures Col2imPlane(t, g, h, w)[r][c] == SumKh(t, g, r, c, g.kH)
  {
  }

  /** Scaling by a and then by b is scaling by the product. */
  lemma ScaleTwice(x: real, a: nat, b: nat)
    ensures Scale(Scale(x, a), b) == x * ((b * a) as real)
  {
    var y := Scale(x, a);
    ScaleIsProduct(x, a);
    ScaleIsProduct(y, b);
    RealOfProduct(a, b);
    MulRegroup(x, a as real, b as real);
  }

  lemma RealOfProduct(a: nat, b: nat)
    ensures (b * a) as real == (b as real) * (a as real)
  {
  }

  lemma MulRegroup(x: real, ra: real, rb: real)
    ensures (x * ra) * rb == x * (rb * ra)
  {
  }
}
