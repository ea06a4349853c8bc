/** Integer layout arithmetic of 2-D convolution: Java's truncating
    division, the dilated kernel extent, the number of output positions,
    "same"-mode padding, and the argument handling of the im2col/col2im
    entry points (default dilation, [height, width] array arguments, rank
    checks). */
module ConvolutionLayout {
  import opened Outcomes
  import Im2colSpec
  import MixedRadix

  function Abs(x: int): int
  {
    if x < 0 then -x else x
  }

  /** Java's int division, which truncates toward zero: the remainder has
      the sign of the dividend and is smaller than the divisor in size. */
  function JavaDiv(a: int, b: int): (q: int)
    requires b != 0
    ensures 0 <= a ==> 0 <= a - q * b < Abs(b)
    ensures a < 0 ==> -Abs(b) < a - q * b <= 0
  {
    if a >= 0 then a / b else -((-a) / b)
  }

  /** Number of image rows (or columns) spanned by a kernel of k taps whose
      taps are `dilation` apart. */
  function EffectiveKernelSize(kernel: int, dilation: int): (r: int)
    ensures r - 1 == (kernel - 1) * dilation
    ensures dilation == 1 ==> r == kernel
  {
    kernel + (kernel - 1) * (dilation - 1)
  }

  /** The last tap of a kernel with k >= 1 taps sits EffectiveKernelSize - 1
      rows below the first one: the offset im2col gives kernel row k - 1. */
  lemma EffectiveKernelIsLastTap(k: nat, d: nat)
    requires k >= 1
    ensures Im2colSpec.Times(k - 1, d) + 1 == EffectiveKernelSize(k, d)
  {
    Im2colSpec.TimesIsProduct(k - 1, d);
  }

  /** Number of output positions along one axis; a zero stride makes Java
      throw ArithmeticException. */
  function OutSize(size: int, k: int, s: int, p: int, dilation: int, coverAll: bool): (r: Result<int>)
    ensures r.Failure? <==> s == 0
    ensures r.Failure? ==> r.error == ArithmeticDivisionByZero
  {
    var kEff := EffectiveKernelSize(k, dilation);
    if s == 0 then Failure(ArithmeticDivisionByZero)
    else if coverAll then Success(JavaDiv(size + p * 2 - kEff + s - 1, s) + 1)
    else Success(JavaDiv(size + p * 2 - kEff, s) + 1)
  }

  /** Without coverAll, the output size is the number of window positions
      that fit inside the padded input: `r` windows fit and `r + 1` do not. */
  lemma OutSizeCountsWindows(size: int, k: int, s: int, p: int, d: int)
    requires s >= 1
    requires size + 2 * p >= EffectiveKernelSize(k, d)
    ensures OutSize(size, k, s, p, d, false).Success?
    ensures var r := OutSize(size, k, s, p, d, false).value;
      var kEff := EffectiveKernelSize(k, d);
      r >= 1 &&
      (r - 1) * s + kEff <= size + 2 * p < r * s + kEff
  {
    var kEff := EffectiveKernelSize(k, d);
    var q := JavaDiv(size + p * 2 - kEff, s);
    assert (q + 1 - 1) * s == q * s;
    assert (q + 1) * s == q * s + s;
  }

  /** With coverAll, the windows reach the end of the padded input, and one
      window fewer would not. */
  lemma OutSizeCoverAllCovers(size: int, k: int, s: int, p: int, d: int)
    requires s >= 1
    requires size + 2 * p >= EffectiveKernelSize(k, d)
    ensures OutSize(size, k, s, p, d, true).Success?
    ensures var r := OutSize(size, k, s, p, d, true).value;
      var kEff := EffectiveKernelSize(k, d);
      r >= 1 &&
      (r - 1) * s + kEff >= size + 2 * p &&
      (r - 2) * s + kEff < size + 2 * p
  {
    var kEff := EffectiveKernelSize(k, d);
    var q := JavaDiv(size + p * 2 - kEff + s - 1, s);
    assert (q + 1 - 1) * s == q * s;
    assert (q + 1 - 2) * s == q * s - s;
  }

  /** coverAll never yields fewer output positions than the plain formula. */
  lemma CoverAllNotSmaller(size: int, k: int, s: int, p: int, d: int)
    requires s >= 1
    requires size + 2 * p >= EffectiveKernelSize(k, d)
    ensures OutSize(size, k, s, p, d, true).value >= OutSize(size, k, s, p, d, false).value
  {
    OutSizeCountsWindows(size, k, s, p, d);
    OutSizeCoverAllCovers(size, k, s, p, d);
    var r := OutSize(size, k, s, p, d, false).value;
    var r' := OutSize(size, k, s, p, d, true).value;
    var kEff := EffectiveKernelSize(k, d);
    assert (r' - 1) * s + kEff >= size + 2 * p;
    assert size + 2 * p >= (r - 1) * s + kEff;
    assert (r' - r) * s >= 0;
    MulPositive(r - r', s);
  }

  lemma MulPositive(x: int, s: int)
    requires s >= 1
    ensures x >= 1 ==> x * s >= 1
  {
    if x >= 1 {
      assert x * s == (x - 1) * s + s;
      assert (x - 1) * s >= 0;
    }
  }

  /** Every tap of a valid-mode im2col stays inside the padded input: rows
      read are below size + padding (the bottom padding equals the top
      padding here). */
  lemma OutSizeTapsInsidePadding(size: int, k: nat, s: nat, p: int, d: nat, kh: nat, oh: nat)
    requires s >= 1 && k >= 1
    requires size + 2 * p >= EffectiveKernelSize(k, d)
    requires kh < k && oh < OutSize(size, k, s, p, d, false).value
    ensures Im2colSpec.Times(oh, s) + Im2colSpec.Times(kh, d) - p <= size + p - 1
  {
    OutSizeCountsWindows(size, k, s, p, d);
    Im2colSpec.TimesIsProduct(oh, s);
    Im2colSpec.TimesIsProduct(kh, d);
    var r := OutSize(size, k, s, p, d, false).value;
    MulMonotone(oh, r - 1, s);
    MulMonotone(kh, k - 1, d);
  }

  lemma MulMonotone(a: nat, b: int, m: nat)
    requires a <= b
    ensures a * m <= b * m
  {
    assert b * m - a * m == (b - a) * m;
  }

  // ----- "same" mode -----

  /** Output size and the padding before and after the input along one axis. */
  datatype AxisLayout = AxisLayout(out: int, before: int, after: int)

  /** `Math.ceil(in / (double) s)` for a non-negative size and positive stride. */
  function CeilDiv(a: nat, s: int): (r: int)
    requires s >= 1
    ensures (r - 1) * s < a <= r * s
  {
    var q := (a + s - 1) / s;
    assert (q - 1) * s == q * s - s;
    q
  }

  /** "Same" mode: the output size is ceil(in / s); the total padding makes
      the last window end at the padded input's end, split with the smaller
      half (Java's truncating halving) before the input. */
  function SamePadding(inSize: nat, k: int, s: int, d: int): (r: AxisLayout)
    requires s >= 1
    ensures (r.out - 1) * s < inSize <= r.out * s
    ensures r.before + r.after == (r.out - 1) * s + EffectiveKernelSize(k, d) - inSize
    ensures r.before + r.after >= 0 ==> 0 <= r.after - r.before <= 1
  {
    var out := CeilDiv(inSize, s);
    var sumPad := (out - 1) * s + EffectiveKernelSize(k, d) - inSize;
    var before := JavaDiv(sumPad, 2);
    AxisLayout(out, before, sumPad - before)
  }

  /** With the padding "same" mode chooses, the valid-mode window count over
      the padded input is exactly ceil(in / s). */
  lemma SamePaddingIsValidOverPadded(inSize: nat, k: int, s: int, d: int)
    requires s >= 1
    ensures var r := SamePadding(inSize, k, s, d);
      JavaDiv(inSize + r.before + r.after - EffectiveKernelSize(k, d), s) + 1 == r.out
  {
    var r := SamePadding(inSize, k, s, d);
    var a := inSize + r.before + r.after - EffectiveKernelSize(k, d);
    assert a == (r.out - 1) * s;
    JavaDivExact(r.out - 1, s);
  }

  lemma JavaDivExact(q: int, s: int)
    requires s >= 1
    ensures JavaDiv(q * s, s) == q
  {
    var j := JavaDiv(q * s, s);
    assert -s < q * s - j * s < s;
    assert (q - j) * s == q * s - j * s;
    MixedRadix.MulSign(q - j, s);
  }

  // ----- entry points: default arguments and rank checks -----

  /** The parameters an im2col entry point hands to the native op. */
  datatype Im2colRequest = Im2colRequest(
    kh: int, kw: int, sy: int, sx: int, ph: int, pw: int,
    dh: int, dw: int, isSameMode: bool)

  /** The parameters a col2im entry point hands to the native op. */
  datatype Col2imRequest = Col2imRequest(
    sy: int, sx: int, ph: int, pw: int, h: int, w: int, dh: int, dw: int)

  /** im2col(img, kernel[], stride[], padding[]): [height, width] pairs,
      dilation 1, not same mode; a short array fails on indexing. */
  function Im2colFromArrays(kernel: seq<int>, stride: seq<int>, padding: seq<int>): (r: Result<Im2colRequest>)
    ensures r.Success? <==> |kernel| >= 2 && |stride| >= 2 && |padding| >= 2
    ensures r.Failure? ==> r.error == IndexOutOfBounds
    ensures r.Success? ==>
      r.value.kh == kernel[0] && r.value.kw == kernel[1] &&
      r.value.sy == stride[0] && r.value.sx == stride[1] &&
      r.value.ph == padding[0] && r.value.pw == padding[1] &&
      r.value.dh == 1 && r.value.dw == 1 && !r.value.isSameMode
  {
    if |kernel| < 2 || |stride| < 2 || |padding| < 2 then Failure(IndexOutOfBounds)
    else Im2colWithPadValue(kernel[0], kernel[1], stride[0], stride[1], padding[0], padding[1], 0, false)
  }

  /** im2col(img, kh, kw, sy, sx, ph, pw, isSameMode): dilation 1. */
  function Im2colNoDilation(kh: int, kw: int, sy: int, sx: int, ph: int, pw: int, isSameMode: bool): (r: Im2colRequest)
    ensures r.dh == 1 && r.dw == 1
    ensures r.kh == kh && r.kw == kw && r.sy == sy && r.sx == sx && r.ph == ph && r.pw == pw
    ensures r.isSameMode == isSameMode
  {
    Im2colDilated(kh, kw, sy, sx, ph, pw, 1, 1, isSameMode)
  }

  /** im2col(img, kh, kw, sy, sx, ph, pw, dh, dw, isSameMode). */
  function Im2colDilated(kh: int, kw: int, sy: int, sx: int, ph: int, pw: int, dh: int, dw: int, isSameMode: bool): (r: Im2colRequest)
    ensures r.kh == kh && r.kw == kw && r.sy == sy && r.sx == sx && r.ph == ph && r.pw == pw
    ensures r.dh == dh && r.dw == dw && r.isSameMode == isSameMode
  {
    Im2colRequest(kh, kw, sy, sx, ph, pw, dh, dw, isSameMode)
  }

  /** im2col(img, kh, kw, sy, sx, ph, pw, pval, isSameMode): the pad value
      is not used and dilation is 1. */
  function Im2colWithPadValue(kh: int, kw: int, sy: int, sx: int, ph: int, pw: int, pval: int, isSameMode: bool): (r: Result<Im2colRequest>)
    ensures r.Success?
    ensures r.value == Im2colNoDilation(kh, kw, sy, sx, ph, pw, isSameMode)
  {
    Success(Im2colRequest(kh, kw, sy, sx, ph, pw, 1, 1, isSameMode))
  }

  /** The pad value never reaches the native op. */
  lemma PadValueIgnored(kh: int, kw: int, sy: int, sx: int, ph: int, pw: int, pval: int, pval': int, isSameMode: bool)
    ensures Im2colWithPadValue(kh, kw, sy, sx, ph, pw, pval, isSameMode) ==
            Im2colWithPadValue(kh, kw, sy, sx, ph, pw, pval', isSameMode)
  {
  }

  // ----- from a request to a geometry -----

  /** How the im2col op lays out one axis of `size` pixels: in "same" mode
      the output size and the padding are the ones SamePadding computes and
      the requested padding is not used; otherwise the requested padding
      goes before and after the input and outSize (without coverAll) counts
      the windows. */
  function AxisOf(size: nat, k: int, s: int, p: int, d: int, sameMode: bool): (a: AxisLayout)
    requires s >= 1
    ensures sameMode ==> (a.out - 1) * s < size <= a.out * s
    ensures sameMode ==> (a.out - 1) * s + EffectiveKernelSize(k, d) == size + a.before + a.after
    ensures !sameMode ==> a.before == p && a.after == p
    ensures !sameMode && size + 2 * p >= EffectiveKernelSize(k, d) ==>
      a.out >= 1 &&
      (a.out - 1) * s + EffectiveKernelSize(k, d) <= size + 2 * p < a.out * s + EffectiveKernelSize(k, d)
  {
    if sameMode then SamePadding(size, k, s, d)
    else
      OutSizeCountsWindowsIfFits(size, k, s, p, d);
      AxisLayout(OutSize(size, k, s, p, d, false).value, p, p)
  }

  lemma OutSizeCountsWindowsIfFits(size: int, k: int, s: int, p: int, d: int)
    requires s >= 1
    ensures size + 2 * p >= EffectiveKernelSize(k, d) ==>
      var r := OutSize(size, k, s, p, d, false).value;
      r >= 1 && (r - 1) * s + EffectiveKernelSize(k, d) <= size + 2 * p < r * s + EffectiveKernelSize(k, d)
  {
    if size + 2 * p >= EffectiveKernelSize(k, d) {
      OutSizeCountsWindows(size, k, s, p, d);
    }
  }

  /** Kernel sizes and dilations are non-negative and strides positive. */
  predicate SizesValid(r: Im2colRequest)
  {
    r.kh >= 0 && r.kw >= 0 && r.sy >= 1 && r.sx >= 1 && r.dh >= 0 && r.dw >= 0
  }

  /** The geometry the im2col op works with for a request over an h-by-w
      image: kernel, stride and dilation as requested, and the output size
      and leading padding of each axis as AxisOf lays it out.  None when a
      size is out of range or an axis has no output position count (what
      the native op does there is not part of this model). */
  function GeometryOf(r: Im2colRequest, h: nat, w: nat): (g: Option<Im2colSpec.Geometry>)
    ensures g.Some? <==>
      SizesValid(r) &&
      AxisOf(h, r.kh, r.sy, r.ph, r.dh, r.isSameMode).out >= 0 &&
      AxisOf(w, r.kw, r.sx, r.pw, r.dw, r.isSameMode).out >= 0
    ensures g.Some? ==>
      g.value.kH == r.kh && g.value.kW == r.kw && g.value.sH == r.sy && g.value.sW == r.sx &&
      g.value.dH == r.dh && g.value.dW == r.dw
    ensures g.Some? && r.isSameMode ==>
      g.value.outH == CeilDiv(h, r.sy) && g.value.outW == CeilDiv(w, r.sx) &&
      g.value.padTop == SamePadding(h, r.kh, r.sy, r.dh).before &&
      g.value.padLeft == SamePadding(w, r.kw, r.sx, r.dw).before
    ensures g.Some? && !r.isSameMode ==>
      g.value.padTop == r.ph && g.value.padLeft == r.pw &&
      OutSize(h, r.kh, r.sy, r.ph, r.dh, false) == Success(g.value.outH as int) &&
      OutSize(w, r.kw, r.sx, r.pw, r.dw, false) == Success(g.value.outW as int)
  {
    if !SizesValid(r) then None
    else
      var rows := AxisOf(h, r.kh, r.sy, r.ph, r.dh, r.isSameMode);
      var cols := AxisOf(w, r.kw, r.sx, r.pw, r.dw, r.isSameMode);
      if rows.out < 0 || cols.out < 0 then None
      else Some(Im2colSpec.Geometry(r.kh, r.kw, r.sy, r.sx, rows.before, cols.before, r.dh, r.dw, rows.out, cols.out))
  }

  /** In "same" mode the requested padding plays no part. */
  lemma SameModeAxis(size: nat, k: int, s: int, p: int, d: int)
    requires s >= 1
    ensures AxisOf(size, k, s, p, d, true) == SamePadding(size, k, s, d)
  {
  }

  /** GeometryOf assembled from the layouts of its two axes. */
  lemma GeometryFromAxes(r: Im2colRequest, h: nat, w: nat, rows: AxisLayout, cols: AxisLayout)
    requires SizesValid(r)
    requires AxisOf(h, r.kh, r.sy, r.ph, r.dh, r.isSameMode) == rows && rows.out >= 0
    requires AxisOf(w, r.kw, r.sx, r.pw, r.dw, r.isSameMode) == cols && cols.out >= 0
    ensures GeometryOf(r, h, w) ==
      Some(Im2colSpec.Geometry(r.kh, r.kw, r.sy, r.sx, rows.before, cols.before, r.dh, r.dw, rows.out, cols.out))
  {
  }

  /** Along one axis, every tap of every output position lies in the padded
      input: no earlier than the leading padding and before the end of the
      trailing padding.  In valid mode this needs the kernel to fit. */
  lemma AxisTapsInside(size: nat, k: nat, s: nat, p: int, d: nat, sameMode: bool, kk: nat, o: nat)
    requires s >= 1
    requires !sameMode ==> size + 2 * p >= EffectiveKernelSize(k, d)
    requires kk < k && o < AxisOf(size, k, s, p, d, sameMode).out
    ensures var a := AxisOf(size, k, s, p, d, sameMode);
      -a.before <= Im2colSpec.Times(o, s) + Im2colSpec.Times(kk, d) - a.before <= size + a.after - 1
  {
    var a := AxisOf(size, k, s, p, d, sameMode);
    Im2colSpec.TimesIsProduct(o, s);
    Im2colSpec.TimesIsProduct(kk, d);
    MulMonotone(o, a.out - 1, s);
    MulMonotone(kk, k - 1, d);
    assert o * s + kk * d <= (a.out - 1) * s + EffectiveKernelSize(k, d) - 1;
  }

  /** Every tap of the geometry a request describes reads a row and a
      column of the padded image: between the leading padding and the end
      of the trailing padding that AxisOf gives each axis. */
  lemma GeometryTapsInsidePadding(r: Im2colRequest, h: nat, w: nat)
    requires GeometryOf(r, h, w).Some?
    requires !r.isSameMode ==>
      h + 2 * r.ph >= EffectiveKernelSize(r.kh, r.dh) && w + 2 * r.pw >= EffectiveKernelSize(r.kw, r.dw)
    ensures var g := GeometryOf(r, h, w).value;
      forall kh: nat, oh: nat :: kh < g.kH && oh < g.outH ==>
        -g.padTop <= Im2colSpec.SourceRow(g, kh, oh) < h + AxisOf(h, r.kh, r.sy, r.ph, r.dh, r.isSameMode).after
    ensures var g := GeometryOf(r, h, w).value;
      forall kw: nat, ow: nat :: kw < g.kW && ow < g.outW ==>
        -g.padLeft <= Im2colSpec.SourceCol(g, kw, ow) < w + AxisOf(w, r.kw, r.sx, r.pw, r.dw, r.isSameMode).after
  {
    var g := GeometryOf(r, h, w).value;
    forall kh: nat, oh: nat | kh < g.kH && oh < g.outH
      ensures -g.padTop <= Im2colSpec.SourceRow(g, kh, oh) < h + AxisOf(h, r.kh, r.sy, r.ph, r.dh, r.isSameMode).after
    {
      AxisTapsInside(h, g.kH, g.sH, r.ph, g.dH, r.isSameMode, kh, oh);
    }
    forall kw: nat, ow: nat | kw < g.kW && ow < g.outW
      ensures -g.padLeft <= Im2colSpec.SourceCol(g, kw, ow) < w + AxisOf(w, r.kw, r.sx, r.pw, r.dw, r.isSameMode).after
    {
      AxisTapsInside(w, g.kW, g.sW, r.pw, g.dW, r.isSameMode, kw, ow);
    }
  }

  /** col2im(col, sy, sx, ph, pw, h, w): the patch array must be rank 6;
      dilation is 1. */
  function Col2imChecked(colRank: nat, sy: int, sx: int, ph: int, pw: int, h: int, w: int): (r: Result<Col2imRequest>)
    ensures r.Failure? <==> colRank != 6
    ensures r.Failure? ==> r.error == IllegalArgument("col2im input array must be rank 6")
    ensures r.Success? ==> r.value.dh == 1 && r.value.dw == 1
    ensures r.Success? ==> r.value == Col2imRequest(sy, sx, ph, pw, h, w, 1, 1)
  {
    if colRank != 6 then Failure(IllegalArgument("col2im input array must be rank 6"))
    else Success(Col2imRequest(sy, sx, ph, pw, h, w, 1, 1))
  }

  /** col2im(col, stride[], padding[], h, w): the arrays are indexed before
      the rank check runs. */
  function Col2imFromArrays(colRank: nat, stride: seq<int>, padding: seq<int>, h: int, w: int): (r: Result<Col2imRequest>)
    ensures |stride| < 2 || |padding| < 2 ==> r == Failure(IndexOutOfBounds)
    ensures |stride| >= 2 && |padding| >= 2 ==>
      r == Col2imChecked(colRank, stride[0], stride[1], padding[0], padding[1], h, w)
  {
    if |stride| < 2 || |padding| < 2 then Failure(IndexOutOfBounds)
    else Col2imChecked(colRank, stride[0], stride[1], padding[0], padding[1], h, w)
  }

  /** The checks of col2im(col, z, ...): the patch array's rank first, then
      the destination's. */
  function Col2imIntoCheck(colRank: nat, zRank: nat): (e: Option<JavaException>)
    ensures e.None? <==> colRank == 6 && zRank == 4
    ensures colRank != 6 ==> e == Some(IllegalArgument("col2im input array must be rank 6"))
    ensures colRank == 6 && zRank != 4 ==> e == Some(IllegalArgument("col2im output array must be rank 4"))
  {
    if colRank != 6 then Some(IllegalArgument("col2im input array must be rank 6"))
    else if zRank != 4 then Some(IllegalArgument("col2im output array must be rank 4"))
    else None
  }

  /** Strides, dilations and the image size of a col2im request are
      non-negative. */
  predicate Col2imSizesValid(q: Col2imRequest)
  {
    q.sy >= 0 && q.sx >= 0 && q.dh >= 0 && q.dw >= 0 && q.h >= 0 && q.w >= 0
  }

  /** The geometry col2im works with: the kernel and output sizes are the
      axes 2 to 5 of the patch array's shape, the rest comes from the
      request. */
  function Col2imGeometry(q: Col2imRequest, kH: nat, kW: nat, outH: nat, outW: nat): (g: Option<Im2colSpec.Geometry>)
    ensures g.Some? <==> q.sy >= 0 && q.sx >= 0 && q.dh >= 0 && q.dw >= 0
    ensures g.Some? ==>
      g.value.kH == kH && g.value.kW == kW && g.value.outH == outH && g.value.outW == outW &&
      g.value.sH == q.sy && g.value.sW == q.sx && g.value.padTop == q.ph && g.value.padLeft == q.pw &&
      g.value.dH == q.dh && g.value.dW == q.dw
  {
    if q.sy >= 0 && q.sx >= 0 && q.dh >= 0 && q.dw >= 0
    then Some(Im2colSpec.Geometry(kH, kW, q.sy, q.sx, q.ph, q.pw, q.dh, q.dw, outH, outW))
    else None
  }

  /** Handing col2im the strides, dilations and image size of an im2col
      call, the leading padding that call worked with, and the patch array
      it produced gives back the im2col geometry. */
  lemma Col2imUndoesIm2colGeometry(r: Im2colRequest, h: nat, w: nat)
    requires GeometryOf(r, h, w).Some?
    ensures var g := GeometryOf(r, h, w).value;
      Col2imGeometry(Col2imRequest(r.sy, r.sx, g.padTop, g.padLeft, h, w, r.dh, r.dw), g.kH, g.kW, g.outH, g.outW) == Some(g)
  {
  }
}
