/** The known-value checks of the convolution test suite, stated as lemmas
    about the model: selected im2col windows, the col2im sums of the
    "same"-mode tests, the output-size arithmetic, and one im2col into a
    permuted view of a caller-supplied buffer. */
module ConvolutionTests {
  import opened Outcomes
  import opened MixedRadix
  import opened Im2colSpec
  import ConvolutionLayout
  import ConvolutionInto

  // ----- inputs -----

  /** minibatch 2, depth 2, 3x3, values 0 .. 35 in row-major order. */
  function KnownInput(): Image
  {
    [[[[0.0, 1.0, 2.0], [3.0, 4.0, 5.0], [6.0, 7.0, 8.0]],
      [[9.0, 10.0, 11.0], [12.0, 13.0, 14.0], [15.0, 16.0, 17.0]]],
     [[[18.0, 19.0, 20.0], [21.0, 22.0, 23.0], [24.0, 25.0, 26.0]],
      [[27.0, 28.0, 29.0], [30.0, 31.0, 32.0], [33.0, 34.0, 35.0]]]]
  }

  lemma KnownInputShape()
    ensures IsImage(KnownInput(), 2, 2, 3, 3)
  {
  }

  /** minibatch 2, depth 1, 4x4, values 0 .. 31. */
  function DilatedInput(): Image
  {
    [[[[0.0, 1.0, 2.0, 3.0], [4.0, 5.0, 6.0, 7.0], [8.0, 9.0, 10.0, 11.0], [12.0, 13.0, 14.0, 15.0]]],
     [[[16.0, 17.0, 18.0, 19.0], [20.0, 21.0, 22.0, 23.0], [24.0, 25.0, 26.0, 27.0], [28.0, 29.0, 30.0, 31.0]]]]
  }

  /** minibatch 1, depth 1, 5x5, values 0 .. 24. */
  function DilatedStridedInput(): Image
  {
    [[[[0.0, 1.0, 2.0, 3.0, 4.0], [5.0, 6.0, 7.0, 8.0, 9.0], [10.0, 11.0, 12.0, 13.0, 14.0],
       [15.0, 16.0, 17.0, 18.0, 19.0], [20.0, 21.0, 22.0, 23.0, 24.0]]]]
  }

  /** minibatch 1, depth 2, 3x4, values 0 .. 23. */
  function Stride2Input(): Image
  {
    [[[[0.0, 1.0, 2.0, 3.0], [4.0, 5.0, 6.0, 7.0], [8.0, 9.0, 10.0, 11.0]],
      [[12.0, 13.0, 14.0, 15.0], [16.0, 17.0, 18.0, 19.0], [20.0, 21.0, 22.0, 23.0]]]]
  }

  /** minibatch 1, depth 1, 4x5, values 0 .. 19. */
  function DilatedSameInput(): Image
  {
    [[[[0.0, 1.0, 2.0, 3.0, 4.0], [5.0, 6.0, 7.0, 8.0, 9.0],
       [10.0, 11.0, 12.0, 13.0, 14.0], [15.0, 16.0, 17.0, 18.0, 19.0]]]]
  }

  // Geometry(kH, kW, sH, sW, padTop, padLeft, dH, dW, outH, outW) of each test.
  const KnownGeometry := Geometry(2, 2, 1, 1, 0, 0, 1, 1, 2, 2)
  const DilatedGeometry := Geometry(2, 2, 1, 1, 0, 0, 2, 2, 2, 2)
  const DilatedStridedGeometry := Geometry(2, 2, 2, 2, 0, 0, 2, 2, 2, 2)
  const SameGeometry := Geometry(2, 2, 1, 1, 0, 0, 1, 1, 3, 3)
  const Stride2Geometry := Geometry(3, 3, 2, 2, 1, 0, 1, 1, 2, 2)
  const DilatedSameGeometry := Geometry(2, 2, 1, 1, 1, 1, 2, 2, 4, 5)

  // ----- windows of im2col -----

  /** The kH x kW window p[b, c, :, :, oh, ow] of a patch tensor. */
  function Window(p: Patches, g: Geometry, b: nat, c: nat, oh: nat, ow: nat): seq<seq<real>>
    requires b < |p| && c < |p[b]| && IsTaps(p[b][c], g) && oh < g.outH && ow < g.outW
  {
    seq(g.kH, (kh: int) requires 0 <= kh < g.kH =>
      seq(g.kW, (kw: int) requires 0 <= kw < g.kW => p[b][c][kh][kw][oh][ow]))
  }

  /** A window of im2col(img) is the block of pixels at rows oh*sH + kh*dH -
      padTop and columns ow*sW + kw*dW - padLeft, zero outside the image. */
  lemma WindowOfIm2col(img: Image, g: Geometry, b: nat, c: nat, oh: nat, ow: nat, w: seq<seq<real>>)
    requires b < |img| && c < |img[b]| && oh < g.outH && ow < g.outW
    requires |w| == g.kH && forall kh :: 0 <= kh < g.kH ==> |w[kh]| == g.kW
    requires forall kh: nat, kw: nat :: kh < g.kH && kw < g.kW ==>
      PixelOrZero(img[b][c], oh * g.sH + kh * g.dH - g.padTop, ow * g.sW + kw * g.dW - g.padLeft) == w[kh][kw]
    ensures IsTaps(Im2col(img, g)[b][c], g)
    ensures Window(Im2col(img, g), g, b, c, oh, ow) == w
  {
    var v := Window(Im2col(img, g), g, b, c, oh, ow);
    forall kh | 0 <= kh < g.kH
      ensures v[kh] == w[kh]
    {
      forall kw | 0 <= kw < g.kW
        ensures v[kh][kw] == w[kh][kw]
      {
        SourceIsAffine(g, kh, kw, oh, ow);
      }
    }
  }

  /** Kernel 2x2, stride 1, no padding over the 3x3 known input. */
  lemma KnownValuesWindows()
    ensures IsTaps(Im2col(KnownInput(), KnownGeometry)[0][0], KnownGeometry)
    ensures IsTaps(Im2col(KnownInput(), KnownGeometry)[1][1], KnownGeometry)
    ensures Window(Im2col(KnownInput(), KnownGeometry), KnownGeometry, 0, 0, 0, 0) == [[0.0, 1.0], [3.0, 4.0]]
    ensures Window(Im2col(KnownInput(), KnownGeometry), KnownGeometry, 1, 1, 1, 0) == [[30.0, 31.0], [33.0, 34.0]]
    ensures Window(Im2col(KnownInput(), KnownGeometry), KnownGeometry, 1, 1, 1, 1) == [[31.0, 32.0], [34.0, 35.0]]
  {
    WindowOfIm2col(KnownInput(), KnownGeometry, 0, 0, 0, 0, [[0.0, 1.0], [3.0, 4.0]]);
    WindowOfIm2col(KnownInput(), KnownGeometry, 1, 1, 1, 0, [[30.0, 31.0], [33.0, 34.0]]);
    WindowOfIm2col(KnownInput(), KnownGeometry, 1, 1, 1, 1, [[31.0, 32.0], [34.0, 35.0]]);
  }

  /** Kernel 2x2 with dilation 2: the taps skip every other pixel. */
  lemma DilatedWindows()
    ensures IsTaps(Im2col(DilatedInput(), DilatedGeometry)[0][0], DilatedGeometry)
    ensures IsTaps(Im2col(DilatedInput(), DilatedGeometry)[1][0], DilatedGeometry)
    ensures Window(Im2col(DilatedInput(), DilatedGeometry), DilatedGeometry, 0, 0, 0, 0) == [[0.0, 2.0], [8.0, 10.0]]
    ensures Window(Im2col(DilatedInput(), DilatedGeometry), DilatedGeometry, 1, 0, 0, 0) == [[16.0, 18.0], [24.0, 26.0]]
    ensures Window(Im2col(DilatedInput(), DilatedGeometry), DilatedGeometry, 1, 0, 1, 1) == [[21.0, 23.0], [29.0, 31.0]]
  {
    WindowOfIm2col(DilatedInput(), DilatedGeometry, 0, 0, 0, 0, [[0.0, 2.0], [8.0, 10.0]]);
    WindowOfIm2col(DilatedInput(), DilatedGeometry, 1, 0, 0, 0, [[16.0, 18.0], [24.0, 26.0]]);
    WindowOfIm2col(DilatedInput(), DilatedGeometry, 1, 0, 1, 1, [[21.0, 23.0], [29.0, 31.0]]);
  }

  /** Kernel 2x2, dilation 2, stride 2 over the 5x5 input: all four windows. */
  lemma DilatedStridedWindows()
    ensures IsTaps(Im2col(DilatedStridedInput(), DilatedStridedGeometry)[0][0], DilatedStridedGeometry)
    ensures Window(Im2col(DilatedStridedInput(), DilatedStridedGeometry), DilatedStridedGeometry, 0, 0, 0, 0) == [[0.0, 2.0], [10.0, 12.0]]
    ensures Window(Im2col(DilatedStridedInput(), DilatedStridedGeometry), DilatedStridedGeometry, 0, 0, 0, 1) == [[2.0, 4.0], [12.0, 14.0]]
    ensures Window(Im2col(DilatedStridedInput(), DilatedStridedGeometry), DilatedStridedGeometry, 0, 0, 1, 0) == [[10.0, 12.0], [20.0, 22.0]]
    ensures Window(Im2col(DilatedStridedInput(), DilatedStridedGeometry), DilatedStridedGeometry, 0, 0, 1, 1) == [[12.0, 14.0], [22.0, 24.0]]
  {
    WindowOfIm2col(DilatedStridedInput(), DilatedStridedGeometry, 0, 0, 0, 0, [[0.0, 2.0], [10.0, 12.0]]);
    WindowOfIm2col(DilatedStridedInput(), DilatedStridedGeometry, 0, 0, 0, 1, [[2.0, 4.0], [12.0, 14.0]]);
    WindowOfIm2col(DilatedStridedInput(), DilatedStridedGeometry, 0, 0, 1, 0, [[10.0, 12.0], [20.0, 22.0]]);
    WindowOfIm2col(DilatedStridedInput(), DilatedStridedGeometry, 0, 0, 1, 1, [[12.0, 14.0], [22.0, 24.0]]);
  }

  /** "Same" mode, kernel 2, stride 1 over 3x3: windows that reach into the
      bottom and right padding read zeros. */
  lemma SamePaddingWindows()
    ensures IsTaps(Im2col(KnownInput(), SameGeometry)[0][0], SameGeometry)
    ensures Window(Im2col(KnownInput(), SameGeometry), SameGeometry, 0, 0, 0, 2) == [[2.0, 0.0], [5.0, 0.0]]
    ensures Window(Im2col(KnownInput(), SameGeometry), SameGeometry, 0, 0, 2, 0) == [[6.0, 7.0], [0.0, 0.0]]
  {
    WindowOfIm2col(KnownInput(), SameGeometry, 0, 0, 0, 2, [[2.0, 0.0], [5.0, 0.0]]);
    WindowOfIm2col(KnownInput(), SameGeometry, 0, 0, 2, 0, [[6.0, 7.0], [0.0, 0.0]]);
  }

  /** The same case at the bottom-right corner, where three of the four
      taps fall in the padding. */
  lemma SamePaddingCorner()
    ensures IsTaps(Im2col(KnownInput(), SameGeometry)[1][1], SameGeometry)
    ensures Window(Im2col(KnownInput(), SameGeometry), SameGeometry, 0, 0, 2, 2) == [[8.0, 0.0], [0.0, 0.0]]
    ensures Window(Im2col(KnownInput(), SameGeometry), SameGeometry, 1, 1, 2, 2) == [[35.0, 0.0], [0.0, 0.0]]
  {
    WindowOfIm2col(KnownInput(), SameGeometry, 0, 0, 2, 2, [[8.0, 0.0], [0.0, 0.0]]);
    WindowOfIm2col(KnownInput(), SameGeometry, 1, 1, 2, 2, [[35.0, 0.0], [0.0, 0.0]]);
  }

  /** "Same" mode, kernel 3, stride 2 over 3x4 (padding top 1, left 0). */
  lemma Stride2Windows()
    ensures IsTaps(Im2col(Stride2Input(), Stride2Geometry)[0][0], Stride2Geometry)
    ensures IsTaps(Im2col(Stride2Input(), Stride2Geometry)[0][1], Stride2Geometry)
    ensures Window(Im2col(Stride2Input(), Stride2Geometry), Stride2Geometry, 0, 0, 0, 0) ==
      [[0.0, 0.0, 0.0], [0.0, 1.0, 2.0], [4.0, 5.0, 6.0]]
    ensures Window(Im2col(Stride2Input(), Stride2Geometry), Stride2Geometry, 0, 0, 1, 1) ==
      [[6.0, 7.0, 0.0], [10.0, 11.0, 0.0], [0.0, 0.0, 0.0]]
    ensures Window(Im2col(Stride2Input(), Stride2Geometry), Stride2Geometry, 0, 1, 0, 1) ==
      [[0.0, 0.0, 0.0], [14.0, 15.0, 0.0], [18.0, 19.0, 0.0]]
    ensures Window(Im2col(Stride2Input(), Stride2Geometry), Stride2Geometry, 0, 1, 1, 1) ==
      [[18.0, 19.0, 0.0], [22.0, 23.0, 0.0], [0.0, 0.0, 0.0]]
  {
    WindowOfIm2col(Stride2Input(), Stride2Geometry, 0, 0, 0, 0, [[0.0, 0.0, 0.0], [0.0, 1.0, 2.0], [4.0, 5.0, 6.0]]);
    WindowOfIm2col(Stride2Input(), Stride2Geometry, 0, 0, 1, 1, [[6.0, 7.0, 0.0], [10.0, 11.0, 0.0], [0.0, 0.0, 0.0]]);
    WindowOfIm2col(Stride2Input(), Stride2Geometry, 0, 1, 0, 1, [[0.0, 0.0, 0.0], [14.0, 15.0, 0.0], [18.0, 19.0, 0.0]]);
    WindowOfIm2col(Stride2Input(), Stride2Geometry, 0, 1, 1, 1, [[18.0, 19.0, 0.0], [22.0, 23.0, 0.0], [0.0, 0.0, 0.0]]);
  }

  /** "Same" mode, kernel 2, dilation 2, stride 1 over 4x5 (padding 1 on
      every side). */
  lemma DilatedSameWindows()
    ensures IsTaps(Im2col(DilatedSameInput(), DilatedSameGeometry)[0][0], DilatedSameGeometry)
    ensures Window(Im2col(DilatedSameInput(), DilatedSameGeometry), DilatedSameGeometry, 0, 0, 0, 0) == [[0.0, 0.0], [0.0, 6.0]]
    ensures Window(Im2col(DilatedSameInput(), DilatedSameGeometry), DilatedSameGeometry, 0, 0, 1, 2) == [[1.0, 3.0], [11.0, 13.0]]
    ensures Window(Im2col(DilatedSameInput(), DilatedSameGeometry), DilatedSameGeometry, 0, 0, 2, 4) == [[8.0, 0.0], [18.0, 0.0]]
    ensures Window(Im2col(DilatedSameInput(), DilatedSameGeometry), DilatedSameGeometry, 0, 0, 3, 4) == [[13.0, 0.0], [0.0, 0.0]]
  {
    WindowOfIm2col(DilatedSameInput(), DilatedSameGeometry, 0, 0, 0, 0, [[0.0, 0.0], [0.0, 6.0]]);
    WindowOfIm2col(DilatedSameInput(), DilatedSameGeometry, 0, 0, 1, 2, [[1.0, 3.0], [11.0, 13.0]]);
    WindowOfIm2col(DilatedSameInput(), DilatedSameGeometry, 0, 0, 2, 4, [[8.0, 0.0], [18.0, 0.0]]);
    WindowOfIm2col(DilatedSameInput(), DilatedSameGeometry, 0, 0, 3, 4, [[13.0, 0.0], [0.0, 0.0]]);
  }

  // ----- col2im of im2col -----

  /** Rows 0 .. |coverH| - 1 and columns 0 .. |coverW| - 1 are read by the
      listed numbers of patch cells. */
  predicate CoverageIs(g: Geometry, coverH: seq<nat>, coverW: seq<nat>)
  {
    (forall r :: 0 <= r < |coverH| ==> CoverH(g, r) == coverH[r]) &&
    (forall c :: 0 <= c < |coverW| ==> CoverW(g, c) == coverW[c])
  }

  /** `e` is `p` with every pixel multiplied by its row and column coverage. */
  predicate ScaledByCoverage(p: Plane, e: Plane, coverH: seq<nat>, coverW: seq<nat>)
  {
    IsPlane(p, |coverH|, |coverW|) && IsPlane(e, |coverH|, |coverW|) &&
    forall r, c :: 0 <= r < |coverH| && 0 <= c < |coverW| ==>
      e[r][c] == p[r][c] * ((coverH[r] * coverW[c]) as real)
  }

  /** col2im(im2col(p)) of one channel is the plane `e` when `e` is p scaled
      pixel by pixel by the row and column coverages of the geometry. */
  lemma Col2imOfIm2colIs(p: Plane, g: Geometry, coverH: seq<nat>, coverW: seq<nat>, e: Plane)
    requires CoverageIs(g, coverH, coverW)
    requires ScaledByCoverage(p, e, coverH, coverW)
    ensures Col2imPlane(Im2colPlane(p, g), g, |coverH|, |coverW|) == e
  {
    Im2colReadsFrom(p, g);
    Col2imOfReaderIs(p, Im2colPlane(p, g), g, coverH, coverW, e);
  }

  lemma Col2imOfReaderIs(p: Plane, t: Taps, g: Geometry, coverH: seq<nat>, coverW: seq<nat>, e: Plane)
    requires ReadsFrom(t, p, g)
    requires CoverageIs(g, coverH, coverW)
    requires ScaledByCoverage(p, e, coverH, coverW)
    ensures Col2imPlane(t, g, |coverH|, |coverW|) == e
  {
    var h, w := |coverH|, |coverW|;
    var q := Col2imPlane(t, g, h, w);
    forall r | 0 <= r < h
      ensures q[r] == e[r]
    {
      forall c | 0 <= c < w
        ensures q[r][c] == e[r][c]
      {
        PixelMatches(p, t, g, h, w, r, c, e, coverH[r], coverW[c]);
      }
    }
  }

  lemma PixelMatches(p: Plane, t: Taps, g: Geometry, h: nat, w: nat, r: nat, c: nat, e: Plane, a: nat, b: nat)
    requires ReadsFrom(t, p, g)
    requires r < h && c < w && r < |p| && c < |p[r]| && r < |e| && c < |e[r]|
    requires CoverH(g, r) == a && CoverW(g, c) == b
    requires e[r][c] == p[r][c] * ((a * b) as real)
    ensures Col2imPlane(t, g, h, w)[r][c] == e[r][c]
  {
    var x := p[r][c];
    Col2imPixelCovered(p, t, g, h, w, r, c, x);
    ScaleTwice(x, b, a);
    assert Col2imPlane(t, g, h, w)[r][c] == x * ((a * b) as real);
  }

  lemma CoverH2(g: Geometry, h: int)
    requires g.kH == 2
    ensures CoverH(g, h) == CountOh(g, h, 0, g.outH) + CountOh(g, h, 1, g.outH)
  {
    assert CountKh(g, h, 1) == CountOh(g, h, 0, g.outH);
  }

  lemma CoverW2(g: Geometry, w: int)
    requires g.kW == 2
    ensures CoverW(g, w) == CountOw(g, w, 0, g.outW) + CountOw(g, w, 1, g.outW)
  {
    assert CountKw(g, w, 1) == CountOw(g, w, 0, g.outW);
  }

  lemma CoverH3(g: Geometry, h: int)
    requires g.kH == 3
    ensures CoverH(g, h) == CountOh(g, h, 0, g.outH) + CountOh(g, h, 1, g.outH) + CountOh(g, h, 2, g.outH)
  {
    assert CountKh(g, h, 1) == CountOh(g, h, 0, g.outH);
    assert CountKh(g, h, 2) == CountKh(g, h, 1) + CountOh(g, h, 1, g.outH);
  }

  lemma CoverW3(g: Geometry, w: int)
    requires g.kW == 3
    ensures CoverW(g, w) == CountOw(g, w, 0, g.outW) + CountOw(g, w, 1, g.outW) + CountOw(g, w, 2, g.outW)
  {
    assert CountKw(g, w, 1) == CountOw(g, w, 0, g.outW);
    assert CountKw(g, w, 2) == CountKw(g, w, 1) + CountOw(g, w, 1, g.outW);
  }

  /** Kernel 3, stride 2, padding top 1 over 3 rows: the middle row is read
      twice. */
  lemma Stride2RowCoverage(g: Geometry)
    requires g.kH == 3 && g.sH == 2 && g.padTop == 1 && g.dH == 1 && g.outH == 2
    ensures forall r :: 0 <= r < 3 ==> CoverH(g, r) == [1, 2, 1][r]
  {
    forall r | 0 <= r < 3
      ensures CoverH(g, r) == [1, 2, 1][r]
    {
      CoverH3(g, r);
      CountOhIs(g, r, 0, 2);
      CountOhIs(g, r, 1, 2);
      CountOhIs(g, r, 2, 2);
    }
  }

  /** Kernel 3, stride 2, padding left 0 over 4 columns: the third column is
      read twice. */
  lemma Stride2ColumnCoverage(g: Geometry)
    requires g.kW == 3 && g.sW == 2 && g.padLeft == 0 && g.dW == 1 && g.outW == 2
    ensures forall c :: 0 <= c < 4 ==> CoverW(g, c) == [1, 1, 2, 1][c]
  {
    forall c | 0 <= c < 4
      ensures CoverW(g, c) == [1, 1, 2, 1][c]
    {
      CoverW3(g, c);
      CountOwIs(g, c, 0, 2);
      CountOwIs(g, c, 1, 2);
      CountOwIs(g, c, 2, 2);
    }
  }

  /** Kernel 2, dilation 2, stride 1, padding 1 over 4 rows: the inner rows
      are read twice, the border rows once. */
  lemma DilatedSameRowCoverage(g: Geometry)
    requires g.kH == 2 && g.sH == 1 && g.padTop == 1 && g.dH == 2 && g.outH == 4
    ensures forall r :: 0 <= r < 4 ==> CoverH(g, r) == [1, 2, 2, 1][r]
  {
    forall r | 0 <= r < 4
      ensures CoverH(g, r) == [1, 2, 2, 1][r]
    {
      CoverH2(g, r);
      CountOhIs(g, r, 0, 4);
      CountOhIs(g, r, 1, 4);
    }
  }

  /** The same over 5 columns. */
  lemma DilatedSameColumnCoverage(g: Geometry)
    requires g.kW == 2 && g.sW == 1 && g.padLeft == 1 && g.dW == 2 && g.outW == 5
    ensures forall c :: 0 <= c < 5 ==> CoverW(g, c) == [1, 2, 2, 2, 1][c]
  {
    forall c | 0 <= c < 5
      ensures CoverW(g, c) == [1, 2, 2, 2, 1][c]
    {
      CoverW2(g, c);
      CountOwIs(g, c, 0, 5);
      CountOwIs(g, c, 1, 5);
    }
  }

  lemma Stride2Coverage(g: Geometry)
    requires g.kH == 3 && g.sH == 2 && g.padTop == 1 && g.dH == 1 && g.outH == 2
    requires g.kW == 3 && g.sW == 2 && g.padLeft == 0 && g.dW == 1 && g.outW == 2
    ensures CoverageIs(g, [1, 2, 1], [1, 1, 2, 1])
  {
    Stride2RowCoverage(g);
    Stride2ColumnCoverage(g);
  }

  lemma DilatedSameCoverage(g: Geometry)
    requires g.kH == 2 && g.sH == 1 && g.padTop == 1 && g.dH == 2 && g.outH == 4
    requires g.kW == 2 && g.sW == 1 && g.padLeft == 1 && g.dW == 2 && g.outW == 5
    ensures CoverageIs(g, [1, 2, 2, 1], [1, 2, 2, 2, 1])
  {
    DilatedSameRowCoverage(g);
    DilatedSameColumnCoverage(g);
  }

  /** The image the stride-2 "same" col2im test expects. */
  function Stride2Expected(): Image
  {
    [[[[0.0, 1.0, 4.0, 3.0], [8.0, 10.0, 24.0, 14.0], [8.0, 9.0, 20.0, 11.0]],
      [[12.0, 13.0, 28.0, 15.0], [32.0, 34.0, 72.0, 38.0], [20.0, 21.0, 44.0, 23.0]]]]
  }

  /** Each expected pixel is the input pixel times its row and column coverage. */
  lemma Stride2ExpectedIsScaled()
    ensures ScaledByCoverage(Stride2Input()[0][0], Stride2Expected()[0][0], [1, 2, 1], [1, 1, 2, 1])
    ensures ScaledByCoverage(Stride2Input()[0][1], Stride2Expected()[0][1], [1, 2, 1], [1, 1, 2, 1])
  {
    Stride2FirstChannelScaled();
    Stride2SecondChannelScaled();
  }

  lemma Stride2FirstChannelScaled()
    ensures ScaledByCoverage(Stride2Input()[0][0], Stride2Expected()[0][0], [1, 2, 1], [1, 1, 2, 1])
  {
  }

  lemma Stride2SecondChannelScaled()
    ensures ScaledByCoverage(Stride2Input()[0][1], Stride2Expected()[0][1], [1, 2, 1], [1, 1, 2, 1])
  {
  }

  /** The col2im expectation of the stride-2 "same" test, for any geometry
      with its kernel, stride, padding, dilation and output size. */
  lemma Stride2Col2imUnder(g: Geometry)
    requires g.kH == 3 && g.sH == 2 && g.padTop == 1 && g.dH == 1 && g.outH == 2
    requires g.kW == 3 && g.sW == 2 && g.padLeft == 0 && g.dW == 1 && g.outW == 2
    ensures Col2im(Im2col(Stride2Input(), g), g, 3, 4) == Stride2Expected()
  {
    var img, e := Stride2Input(), Stride2Expected();
    Stride2ExpectedIsScaled();
    Stride2Coverage(g);
    Col2imOfIm2colIs(img[0][0], g, [1, 2, 1], [1, 1, 2, 1], e[0][0]);
    Col2imOfIm2colIs(img[0][1], g, [1, 2, 1], [1, 1, 2, 1], e[0][1]);
    var out := Col2im(Im2col(img, g), g, 3, 4);
    assert out[0] == e[0];
  }

  /** The col2im expectation of the stride-2 "same" test. */
  lemma Stride2Col2im()
    ensures Col2im(Im2col(Stride2Input(), Stride2Geometry), Stride2Geometry, 3, 4) == Stride2Expected()
  {
    Stride2Col2imUnder(Stride2Geometry);
  }

  /** The image the dilated "same" col2im test expects. */
  function DilatedSameExpected(): Image
  {
    [[[[0.0, 2.0, 4.0, 6.0, 4.0], [10.0, 24.0, 28.0, 32.0, 18.0],
       [20.0, 44.0, 48.0, 52.0, 28.0], [15.0, 32.0, 34.0, 36.0, 19.0]]]]
  }

  /** Each expected pixel is the input pixel times its row and column coverage. */
  lemma DilatedSameExpectedIsScaled()
    ensures ScaledByCoverage(DilatedSameInput()[0][0], DilatedSameExpected()[0][0], [1, 2, 2, 1], [1, 2, 2, 2, 1])
  {
  }

  /** The col2im expectation of the dilated "same" test, for any geometry
      with its kernel, stride, padding, dilation and output size. */
  lemma DilatedSameCol2imUnder(g: Geometry)
    requires g.kH == 2 && g.sH == 1 && g.padTop == 1 && g.dH == 2 && g.outH == 4
    requires g.kW == 2 && g.sW == 1 && g.padLeft == 1 && g.dW == 2 && g.outW == 5
    ensures Col2im(Im2col(DilatedSameInput(), g), g, 4, 5) == DilatedSameExpected()
  {
    var img, e := DilatedSameInput(), DilatedSameExpected();
    DilatedSameExpectedIsScaled();
    DilatedSameCoverage(g);
    Col2imOfIm2colIs(img[0][0], g, [1, 2, 2, 1], [1, 2, 2, 2, 1], e[0][0]);
    var out := Col2im(Im2col(img, g), g, 4, 5);
    assert out[0] == e[0];
  }

  /** The col2im expectation of the dilated "same" test. */
  lemma DilatedSameCol2im()
    ensures Col2im(Im2col(DilatedSameInput(), DilatedSameGeometry), DilatedSameGeometry, 4, 5) == DilatedSameExpected()
  {
    DilatedSameCol2imUnder(DilatedSameGeometry);
  }

  // ----- col2im into a caller-supplied array -----

  lemma ImageBufferSize()
    ensures Product([1, 2, 3, 4]) == 24
  {
    assert Front([1, 2, 3, 4]) == [1, 2, 3];
    assert Front([1, 2, 3]) == [1, 2];
    assert Front([1, 2]) == [1];
  }

  lemma PatchBufferSize()
    ensures Product([2, 2, 2, 2, 2, 2]) == 64
  {
    assert Front([2, 2, 2, 2, 2, 2]) == [2, 2, 2, 2, 2];
    assert Front([2, 2, 2, 2, 2]) == [2, 2, 2, 2];
    assert Front([2, 2, 2, 2]) == [2, 2, 2];
    assert Front([2, 2, 2]) == [2, 2];
    assert Front([2, 2]) == [2];
  }

  /** col2im(col, z, ...) as written hands back the caller's zero-filled `z`
      where the stride-2 "same" test expects 8 at [0, 0, 1, 0]. */
  method Col2imIntoAsWrittenKeepsZeros() returns (got: real, want: real)
    ensures got == 0.0 && want == 8.0
  {
    var z := new real[24](_ => 0.0);
    var r := ConvolutionInto.Col2imIntoAsWritten([1, 2, 3, 3, 2, 2], z, [1, 2, 3, 4]);
    ImageBufferSize();
    EncodeInRange([1, 2, 3, 4], [0, 0, 1, 0]);
    got := r.value[Encode([1, 2, 3, 4], [0, 0, 1, 0])];
    Stride2Col2im();
    want := Stride2Expected()[0][0][1][0];
  }

  /** col2im into `z`, as the test expects it, fills `z` with the col2im sums. */
  method Col2imIntoFillsExpected() returns (z: array<real>)
    ensures z.Length == 24
    ensures forall idx :: InBounds([1, 2, 3, 4], idx) ==>
      0 <= Encode([1, 2, 3, 4], idx) < z.Length &&
      z[Encode([1, 2, 3, 4], idx)] == Stride2Expected()[idx[0]][idx[1]][idx[2]][idx[3]]
  {
    var g := Stride2Geometry;
    var q := ConvolutionLayout.Col2imRequest(2, 2, 1, 0, 3, 4, 1, 1);
    assert ConvolutionLayout.Col2imGeometry(q, 3, 3, 2, 2) == Some(g);
    z := new real[24](_ => 0.0);
    ImageBufferSize();
    Im2colShape(Stride2Input(), g, 1, 2, 3, 4);
    var r := ConvolutionInto.Col2imInto(Im2col(Stride2Input(), g), [1, 2, 3, 3, 2, 2], q, z, [1, 2, 3, 4]);
    Stride2Col2im();
  }

  // ----- im2col into a permuted view -----

  lemma InBoundsSix(shape: seq<nat>, idx: seq<int>)
    requires |shape| == 6 && |idx| == 6
    requires 0 <= idx[0] < shape[0] && 0 <= idx[1] < shape[1] && 0 <= idx[2] < shape[2]
    requires 0 <= idx[3] < shape[3] && 0 <= idx[4] < shape[4] && 0 <= idx[5] < shape[5]
    ensures InBounds(shape, idx)
  {
    forall k | 0 <= k < 6
      ensures 0 <= idx[k] < shape[k]
    {
      if k == 0 {} else if k == 1 {} else if k == 2 {} else if k == 3 {} else if k == 4 {}
    }
  }

  /** Any permuted view of a buffer whose axes all have the same length has
      that same shape. */
  lemma PermuteUniform(shape: seq<nat>, perm: seq<nat>)
    requires IsPermutation(perm) && |shape| == |perm|
    requires forall j :: 0 <= j < |shape| ==> shape[j] == shape[0]
    ensures Permute(shape, perm) == shape
  {
  }

  /** The window at output position (1, 1) of channel 1 of image 1. */
  lemma KnownValuesLastWindow(img: Image, g: Geometry)
    requires img == KnownInput()
    requires g.kH == 2 && g.kW == 2 && g.sH == 1 && g.sW == 1 && g.padTop == 0 && g.padLeft == 0
    requires g.dH == 1 && g.dW == 1 && g.outH == 2 && g.outW == 2
    ensures IsImage(img, 2, 2, 3, 3)
    ensures IsPatches(Im2col(img, g), 2, 2, g)
    ensures forall kh, kw :: 0 <= kh < 2 && 0 <= kw < 2 ==>
      Im2col(img, g)[1][1][kh][kw][1][1] == [[31.0, 32.0], [34.0, 35.0]][kh][kw]
  {
    assert g == KnownGeometry;
    KnownInputShape();
    Im2colShape(KnownInput(), KnownGeometry, 2, 2, 3, 3);
    KnownValuesWindows();
    var p := Im2col(KnownInput(), KnownGeometry);
    forall kh, kw | 0 <= kh < 2 && 0 <= kw < 2
      ensures p[1][1][kh][kw][1][1] == [[31.0, 32.0], [34.0, 35.0]][kh][kw]
    {
      assert p[1][1][kh][kw][1][1] == Window(p, KnownGeometry, 1, 1, 1, 1)[kh][kw];
    }
  }

  /** im2col of the known input into out2.permute(0, 1, 4, 5, 2, 3) or into
      out3.permute(0, 3, 4, 5, 1, 2) of a 2x2x2x2x2x2 buffer: the view shows
      the last window of the test. */
  method KnownValuesIntoView(img: Image, g: Geometry, perm: seq<nat>) returns (out: array<real>)
    requires img == KnownInput()
    requires g.kH == 2 && g.kW == 2 && g.sH == 1 && g.sW == 1 && g.padTop == 0 && g.padLeft == 0
    requires g.dH == 1 && g.dW == 1 && g.outH == 2 && g.outW == 2
    requires perm == [0, 1, 4, 5, 2, 3] || perm == [0, 3, 4, 5, 1, 2]
    ensures out.Length == 64 && IsPermutation(perm)
    ensures forall kh, kw :: 0 <= kh < 2 && 0 <= kw < 2 ==>
      0 <= ViewOffset([2, 2, 2, 2, 2, 2], perm, [1, 1, kh, kw, 1, 1]) < 64 &&
      out[ViewOffset([2, 2, 2, 2, 2, 2], perm, [1, 1, kh, kw, 1, 1])] == [[31.0, 32.0], [34.0, 35.0]][kh][kw]
  {
    var shape: seq<nat> := [2, 2, 2, 2, 2, 2];
    var view := ConvolutionInto.PatchShape(2, 2, g);
    assert view == shape;
    TestPermutations(perm);
    PermuteUniform(shape, perm);
    PatchBufferSize();
    KnownValuesLastWindow(img, g);
    out := new real[64](_ => 0.0);
    ConvolutionInto.Im2colIntoView(img, 2, 2, 3, 3, g, out, shape, perm);
    ViewShowsLastWindow(Im2col(img, g), g, perm, out[..]);
  }

  /** Both axis orders of the test are permutations of the six axes. */
  lemma TestPermutations(perm: seq<nat>)
    requires perm == [0, 1, 4, 5, 2, 3] || perm == [0, 3, 4, 5, 1, 2]
    ensures IsPermutation(perm) && |perm| == 6
  {
    forall j | 0 <= j < 6
      ensures j in perm
    {
      if perm == [0, 1, 4, 5, 2, 3] {
        assert perm[[0, 1, 4, 5, 2, 3][j]] == j;
      } else {
        assert perm[[0, 4, 5, 1, 2, 3][j]] == j;
      }
    }
  }

  /** A 2x2x2x2x2x2 buffer `s` viewed through `perm` as the patch tensor `p`
      shows p's last window at view index [1, 1, kh, kw, 1, 1]. */
  lemma ViewShowsLastWindow(p: Patches, g: Geometry, perm: seq<nat>, s: seq<real>)
    requires g.kH == 2 && g.kW == 2 && g.outH == 2 && g.outW == 2
    requires IsPermutation(perm) && |perm| == 6
    requires IsPatches(p, 2, 2, g)
    requires forall kh, kw :: 0 <= kh < 2 && 0 <= kw < 2 ==>
      p[1][1][kh][kw][1][1] == [[31.0, 32.0], [34.0, 35.0]][kh][kw]
    requires forall idx :: InBounds(ConvolutionInto.PatchShape(2, 2, g), idx) ==>
      0 <= ViewOffset([2, 2, 2, 2, 2, 2], perm, idx) < |s| &&
      s[ViewOffset([2, 2, 2, 2, 2, 2], perm, idx)] == ConvolutionInto.PatchAt(p, 2, 2, g, idx)
    ensures forall kh, kw :: 0 <= kh < 2 && 0 <= kw < 2 ==>
      0 <= ViewOffset([2, 2, 2, 2, 2, 2], perm, [1, 1, kh, kw, 1, 1]) < |s| &&
      s[ViewOffset([2, 2, 2, 2, 2, 2], perm, [1, 1, kh, kw, 1, 1])] == [[31.0, 32.0], [34.0, 35.0]][kh][kw]
  {
    forall kh, kw | 0 <= kh < 2 && 0 <= kw < 2
      ensures 0 <= ViewOffset([2, 2, 2, 2, 2, 2], perm, [1, 1, kh, kw, 1, 1]) < |s| &&
        s[ViewOffset([2, 2, 2, 2, 2, 2], perm, [1, 1, kh, kw, 1, 1])] == [[31.0, 32.0], [34.0, 35.0]][kh][kw]
    {
      var idx := [1, 1, kh, kw, 1, 1];
      InBoundsSix(ConvolutionInto.PatchShape(2, 2, g), idx);
      assert ConvolutionInto.PatchAt(p, 2, 2, g, idx) == p[1][1][kh][kw][1][1];
    }
  }

  // The layout values below are stated for arguments pinned by `requires`
  // rather than written as literals, which keeps the solver from evaluating
  // every arithmetic function eagerly.

  /** outSize(2, 1, 1, 2, 1, false) is 6. */
  lemma OutSizeKnownValue(size: int, k: int, s: int, p: int, d: int)
    requires size == 2 && k == 1 && s == 1 && p == 2 && d == 1
    ensures ConvolutionLayout.OutSize(size, k, s, p, d, false) == Success(6)
  {
  }

  /** "Same" mode on the 3x3 input with a 2x2 kernel: output 3, padding 0
      before and 1 after. */
  lemma SamePaddingKernel2(inSize: nat, k: int, s: int, d: int)
    requires inSize == 3 && k == 2 && s == 1 && d == 1
    ensures ConvolutionLayout.SamePadding(inSize, k, s, d) == ConvolutionLayout.AxisLayout(3, 0, 1)
  {
    assert ConvolutionLayout.CeilDiv(inSize, s) == 3;
  }

  /** "Same" mode with a 3x3 kernel and stride 2, rows of the 3x4 input:
      output 2, padding 1 and 1. */
  lemma SamePaddingStride2Rows(inSize: nat, k: int, s: int, d: int)
    requires inSize == 3 && k == 3 && s == 2 && d == 1
    ensures ConvolutionLayout.SamePadding(inSize, k, s, d) == ConvolutionLayout.AxisLayout(2, 1, 1)
  {
    assert ConvolutionLayout.CeilDiv(inSize, s) == 2;
    assert ConvolutionLayout.JavaDiv(2, s) == 1;
  }

  /** The same kernel over the 4 columns: output 2, padding 0 and 1. */
  lemma SamePaddingStride2Cols(inSize: nat, k: int, s: int, d: int)
    requires inSize == 4 && k == 3 && s == 2 && d == 1
    ensures ConvolutionLayout.SamePadding(inSize, k, s, d) == ConvolutionLayout.AxisLayout(2, 0, 1)
  {
    assert ConvolutionLayout.CeilDiv(inSize, s) == 2;
    assert ConvolutionLayout.JavaDiv(1, s) == 0;
  }

  /** "Same" mode with a 2x2 kernel dilated by 2, rows of the 4x5 input:
      output 4, padding 1 and 1. */
  lemma SamePaddingDilatedRows(inSize: nat, k: int, s: int, d: int)
    requires inSize == 4 && k == 2 && s == 1 && d == 2
    ensures ConvolutionLayout.SamePadding(inSize, k, s, d) == ConvolutionLayout.AxisLayout(4, 1, 1)
  {
  }

  /** The same kernel over the 5 columns: output 5, padding 1 and 1. */
  lemma SamePaddingDilatedCols(inSize: nat, k: int, s: int, d: int)
    requires inSize == 5 && k == 2 && s == 1 && d == 2
    ensures ConvolutionLayout.SamePadding(inSize, k, s, d) == ConvolutionLayout.AxisLayout(5, 1, 1)
  {
  }

  // ----- the geometries above are the ones the tests' requests describe -----

  /** im2col(in, 2, 2, 1, 1, 0, 0, false) on a 3x3 input. */
  lemma KnownGeometryOfRequest(r: ConvolutionLayout.Im2colRequest, h: nat, w: nat)
    requires r == ConvolutionLayout.Im2colNoDilation(2, 2, 1, 1, 0, 0, false) && h == 3 && w == 3
    ensures ConvolutionLayout.GeometryOf(r, h, w) == Some(KnownGeometry)
  {
    assert ConvolutionLayout.JavaDiv(1, 1) == 1;
  }

  /** im2col(in, 2, 2, 1, 1, 0, 0, 2, 2, false) on a 4x4 input. */
  lemma DilatedGeometryOfRequest(r: ConvolutionLayout.Im2colRequest, h: nat, w: nat)
    requires r == ConvolutionLayout.Im2colDilated(2, 2, 1, 1, 0, 0, 2, 2, false) && h == 4 && w == 4
    ensures ConvolutionLayout.GeometryOf(r, h, w) == Some(DilatedGeometry)
  {
    assert ConvolutionLayout.JavaDiv(1, 1) == 1;
  }

  /** im2col(in, 2, 2, 2, 2, 0, 0, 2, 2, false) on a 5x5 input. */
  lemma DilatedStridedGeometryOfRequest(r: ConvolutionLayout.Im2colRequest, h: nat, w: nat)
    requires r == ConvolutionLayout.Im2colDilated(2, 2, 2, 2, 0, 0, 2, 2, false) && h == 5 && w == 5
    ensures ConvolutionLayout.GeometryOf(r, h, w) == Some(DilatedStridedGeometry)
  {
    assert ConvolutionLayout.JavaDiv(2, 2) == 1;
  }

  /** im2col(in, 2, 2, 1, 1, 0, 0, true) on a 3x3 input. */
  lemma SameGeometryOfRequest(r: ConvolutionLayout.Im2colRequest, h: nat, w: nat)
    requires r == ConvolutionLayout.Im2colNoDilation(2, 2, 1, 1, 0, 0, true) && h == 3 && w == 3
    ensures ConvolutionLayout.GeometryOf(r, h, w) == Some(SameGeometry)
  {
    var rows, cols := ConvolutionLayout.AxisLayout(3, 0, 1), ConvolutionLayout.AxisLayout(3, 0, 1);
    SamePaddingKernel2(h, r.kh, r.sy, r.dh);
    ConvolutionLayout.SameModeAxis(h, r.kh, r.sy, r.ph, r.dh);
    SamePaddingKernel2(w, r.kw, r.sx, r.dw);
    ConvolutionLayout.SameModeAxis(w, r.kw, r.sx, r.pw, r.dw);
    ConvolutionLayout.GeometryFromAxes(r, h, w, rows, cols);
  }

  /** im2col(in, 3, 3, 2, 2, 1, 0, true) on a 3x4 input: "same" mode
      ignores the requested padding. */
  lemma Stride2GeometryOfRequest(r: ConvolutionLayout.Im2colRequest, h: nat, w: nat)
    requires r == ConvolutionLayout.Im2colNoDilation(3, 3, 2, 2, 1, 0, true) && h == 3 && w == 4
    ensures ConvolutionLayout.GeometryOf(r, h, w) == Some(Stride2Geometry)
  {
    var rows, cols := ConvolutionLayout.AxisLayout(2, 1, 1), ConvolutionLayout.AxisLayout(2, 0, 1);
    SamePaddingStride2Rows(h, r.kh, r.sy, r.dh);
    ConvolutionLayout.SameModeAxis(h, r.kh, r.sy, r.ph, r.dh);
    SamePaddingStride2Cols(w, r.kw, r.sx, r.dw);
    ConvolutionLayout.SameModeAxis(w, r.kw, r.sx, r.pw, r.dw);
    ConvolutionLayout.GeometryFromAxes(r, h, w, rows, cols);
  }

  /** im2col(in, 2, 2, 1, 1, 1, 1, 2, 2, true) on a 4x5 input. */
  lemma DilatedSameGeometryOfRequest(r: ConvolutionLayout.Im2colRequest, h: nat, w: nat)
    requires r == ConvolutionLayout.Im2colDilated(2, 2, 1, 1, 1, 1, 2, 2, true) && h == 4 && w == 5
    ensures ConvolutionLayout.GeometryOf(r, h, w) == Some(DilatedSameGeometry)
  {
    var rows, cols := ConvolutionLayout.AxisLayout(4, 1, 1), ConvolutionLayout.AxisLayout(5, 1, 1);
    SamePaddingDilatedRows(h, r.kh, r.sy, r.dh);
    ConvolutionLayout.SameModeAxis(h, r.kh, r.sy, r.ph, r.dh);
    SamePaddingDilatedCols(w, r.kw, r.sx, r.dw);
    ConvolutionLayout.SameModeAxis(w, r.kw, r.sx, r.pw, r.dw);
    ConvolutionLayout.GeometryFromAxes(r, h, w, rows, cols);
  }

}
