/** The im2col and col2im entry points that write into a caller-supplied
    array.  The destination is a flat row-major buffer; im2col may be handed
    a permuted view of it (view axis i is buffer axis perm[i]), and must then
    show through that view exactly what a freshly allocated result holds. */
module ConvolutionInto {
  import opened Outcomes
  import opened MixedRadix
  import opened Im2colSpec
  import ConvolutionLayout

  /** Shape [batch, depth, kH, kW, outH, outW] of an im2col result. */
  function PatchShape(batch: nat, depth: nat, g: Geometry): seq<nat>
  {
    [batch, depth, g.kH, g.kW, g.outH, g.outW]
  }

  /** Element `idx` of a patch tensor of the given shape. */
  function PatchAt(p: Patches, batch: nat, depth: nat, g: Geometry, idx: seq<int>): real
    requires IsPatches(p, batch, depth, g)
    requires InBounds(PatchShape(batch, depth, g), idx)
  {
    p[idx[0]][idx[1]][idx[2]][idx[3]][idx[4]][idx[5]]
  }

  /** Element `idx` of a [batch, depth, h, w] image. */
  function ImageAt(img: Image, batch: nat, depth: nat, h: nat, w: nat, idx: seq<int>): real
    requires IsImage(img, batch, depth, h, w)
    requires InBounds([batch, depth, h, w], idx)
  {
    img[idx[0]][idx[1]][idx[2]][idx[3]]
  }

  /** The patch cell im2col computes at index `idx`. */
  function Tap(img: Image, batch: nat, depth: nat, h: nat, w: nat, g: Geometry, idx: seq<int>): real
    requires IsImage(img, batch, depth, h, w)
    requires InBounds(PatchShape(batch, depth, g), idx)
  {
    PixelOrZero(img[idx[0]][idx[1]], SourceRow(g, idx[2], idx[4]), SourceCol(g, idx[3], idx[5]))
  }

  lemma TapIsIm2col(img: Image, batch: nat, depth: nat, h: nat, w: nat, g: Geometry, idx: seq<int>)
    requires IsImage(img, batch, depth, h, w)
    requires InBounds(PatchShape(batch, depth, g), idx)
    ensures IsPatches(Im2col(img, g), batch, depth, g)
    ensures Tap(img, batch, depth, h, w, g, idx) == PatchAt(Im2col(img, g), batch, depth, g, idx)
  {
    Im2colShape(img, g, batch, depth, h, w);
  }

  /** im2col(img, kh, kw, sy, sx, ph, pw, [dh, dw,] isSameMode, out): fills
      the buffer behind the view permute(perm) of `out` so that every view
      index holds the im2col cell of the same index. */
  method Im2colIntoView(img: Image, batch: nat, depth: nat, h: nat, w: nat, g: Geometry,
                        out: array<real>, shape: seq<nat>, perm: seq<nat>)
    requires IsImage(img, batch, depth, h, w)
    requires IsPermutation(perm) && |shape| == |perm|
    requires Permute(shape, perm) == PatchShape(batch, depth, g)
    requires out.Length == Product(shape)
    modifies out
    ensures IsPatches(Im2col(img, g), batch, depth, g)
    ensures forall idx :: InBounds(PatchShape(batch, depth, g), idx) ==>
      0 <= ViewOffset(shape, perm, idx) < out.Length &&
      out[ViewOffset(shape, perm, idx)] == PatchAt(Im2col(img, g), batch, depth, g, idx)
  {
    var view := PatchShape(batch, depth, g);
    var total := Product(view);
    var t := 0;
    while t < total
      invariant 0 <= t <= total
      invariant forall s :: 0 <= s < t ==>
        InBounds(view, Decode(view, s)) &&
        0 <= ViewOffset(shape, perm, Decode(view, s)) < out.Length &&
        out[ViewOffset(shape, perm, Decode(view, s))] == Tap(img, batch, depth, h, w, g, Decode(view, s))
    {
      var idx := Decode(view, t);
      DecodeThenEncode(view, t);
      var off := ViewOffset(shape, perm, idx);
      ViewOffsetFacts(shape, perm, idx, idx);
      EarlierOffsetsDiffer(shape, perm, view, t);
      out[off] := Tap(img, batch, depth, h, w, g, idx);
      t := t + 1;
    }
    TapsAreIm2col(img, batch, depth, h, w, g, shape, perm, out[..]);
  }

  /** The view offsets of the offsets decoded before t differ from t's. */
  lemma EarlierOffsetsDiffer(shape: seq<nat>, perm: seq<nat>, view: seq<nat>, t: nat)
    requires IsPermutation(perm) && |shape| == |perm|
    requires Permute(shape, perm) == view && t < Product(view)
    ensures forall s :: 0 <= s < t ==>
      ViewOffset(shape, perm, Decode(view, s)) != ViewOffset(shape, perm, Decode(view, t))
  {
    DecodeThenEncode(view, t);
    forall s | 0 <= s < t
      ensures ViewOffset(shape, perm, Decode(view, s)) != ViewOffset(shape, perm, Decode(view, t))
    {
      DecodeThenEncode(view, s);
      ViewOffsetFacts(shape, perm, Decode(view, s), Decode(view, t));
    }
  }

  /** A buffer holding the tap of every decoded view offset holds, at every
      view index, the im2col cell of that index. */
  lemma TapsAreIm2col(img: Image, batch: nat, depth: nat, h: nat, w: nat, g: Geometry,
                      shape: seq<nat>, perm: seq<nat>, buf: seq<real>)
    requires IsImage(img, batch, depth, h, w)
    requires IsPermutation(perm) && |shape| == |perm|
    requires Permute(shape, perm) == PatchShape(batch, depth, g)
    requires forall s :: 0 <= s < Product(PatchShape(batch, depth, g)) ==>
      InBounds(PatchShape(batch, depth, g), Decode(PatchShape(batch, depth, g), s)) &&
      0 <= ViewOffset(shape, perm, Decode(PatchShape(batch, depth, g), s)) < |buf| &&
      buf[ViewOffset(shape, perm, Decode(PatchShape(batch, depth, g), s))] ==
        Tap(img, batch, depth, h, w, g, Decode(PatchShape(batch, depth, g), s))
    ensures IsPatches(Im2col(img, g), batch, depth, g)
    ensures forall idx :: InBounds(PatchShape(batch, depth, g), idx) ==>
      0 <= ViewOffset(shape, perm, idx) < |buf| &&
      buf[ViewOffset(shape, perm, idx)] == PatchAt(Im2col(img, g), batch, depth, g, idx)
  {
    var view := PatchShape(batch, depth, g);
    Im2colShape(img, g, batch, depth, h, w);
    forall idx | InBounds(view, idx)
      ensures 0 <= ViewOffset(shape, perm, idx) < |buf| &&
              buf[ViewOffset(shape, perm, idx)] == PatchAt(Im2col(img, g), batch, depth, g, idx)
    {
      EncodeThenDecode(view, idx);
      TapIsIm2col(img, batch, depth, h, w, g, idx);
    }
  }

  /** col2im(col, z, sy, sx, ph, pw, h, w, dh, dw) as written: after the
      rank checks the native op is built without `col` and without `z`, and
      `z` is returned untouched. */
  method Col2imIntoAsWritten(colShape: seq<nat>, z: array<real>, zShape: seq<nat>)
    returns (r: Result<array<real>>)
    ensures ConvolutionLayout.Col2imIntoCheck(|colShape|, |zShape|).Some? ==>
      r == Failure(ConvolutionLayout.Col2imIntoCheck(|colShape|, |zShape|).value)
    ensures ConvolutionLayout.Col2imIntoCheck(|colShape|, |zShape|).None? ==> r == Success(z)
  {
    var e := ConvolutionLayout.Col2imIntoCheck(|colShape|, |zShape|);
    if e.Some? {
      return Failure(e.value);
    }
    return Success(z);
  }

  /** col2im into `z`, as the callers of col2im(col, z, ...) expect: after
      the rank checks, every element of the [batch, depth, h, w] buffer `z`
      receives the col2im sum of `col`, over the geometry whose kernel and
      output sizes are axes 2 to 5 of `col`'s shape and whose strides,
      padding and dilations are the request's, and `z` is returned. */
  method Col2imInto(col: Patches, colShape: seq<nat>, q: ConvolutionLayout.Col2imRequest, z: array<real>, zShape: seq<nat>)
    returns (r: Result<array<real>>)
    requires ConvolutionLayout.Col2imSizesValid(q)
    requires |colShape| == 6 ==>
      IsPatches(col, colShape[0], colShape[1],
        ConvolutionLayout.Col2imGeometry(q, colShape[2], colShape[3], colShape[4], colShape[5]).value)
    requires |colShape| == 6 && |zShape| == 4 ==>
      zShape == [colShape[0], colShape[1], q.h as nat, q.w as nat] && z.Length == Product(zShape)
    modifies z
    ensures ConvolutionLayout.Col2imIntoCheck(|colShape|, |zShape|).Some? ==>
      r == Failure(ConvolutionLayout.Col2imIntoCheck(|colShape|, |zShape|).value) && z[..] == old(z[..])
    ensures ConvolutionLayout.Col2imIntoCheck(|colShape|, |zShape|).None? ==>
      var g := ConvolutionLayout.Col2imGeometry(q, colShape[2], colShape[3], colShape[4], colShape[5]).value;
      r == Success(z) &&
      IsImage(Col2im(col, g, q.h as nat, q.w as nat), zShape[0], zShape[1], q.h as nat, q.w as nat) &&
      forall idx :: InBounds(zShape, idx) ==>
        0 <= Encode(zShape, idx) < z.Length &&
        z[Encode(zShape, idx)] == ImageAt(Col2im(col, g, q.h as nat, q.w as nat), zShape[0], zShape[1], q.h as nat, q.w as nat, idx)
  {
    var e := ConvolutionLayout.Col2imIntoCheck(|colShape|, |zShape|);
    if e.Some? {
      return Failure(e.value);
    }
    var g := ConvolutionLayout.Col2imGeometry(q, colShape[2], colShape[3], colShape[4], colShape[5]).value;
    var h, w := q.h as nat, q.w as nat;
    var result := Col2im(col, g, h, w);
    Col2imShape(col, g, colShape[0], colShape[1], h, w);
    FillImage(z, result, zShape[0], zShape[1], h, w);
    return Success(z);
  }

  lemma Col2imShape(col: Patches, g: Geometry, batch: nat, depth: nat, h: nat, w: nat)
    requires IsPatches(col, batch, depth, g)
    ensures IsImage(Col2im(col, g, h, w), batch, depth, h, w)
  {
  }

  /** Copies a [batch, depth, h, w] image into a row-major buffer. */
  method FillImage(z: array<real>, img: Image, batch: nat, depth: nat, h: nat, w: nat)
    requires IsImage(img, batch, depth, h, w)
    requires z.Length == Product([batch, depth, h, w])
    modifies z
    ensures forall idx :: InBounds([batch, depth, h, w], idx) ==>
      0 <= Encode([batch, depth, h, w], idx) < z.Length &&
      z[Encode([batch, depth, h, w], idx)] == ImageAt(img, batch, depth, h, w, idx)
  {
    var shape: seq<nat> := [batch, depth, h, w];
    var total := Product(shape);
    var t := 0;
    while t < total
      invariant 0 <= t <= total
      invariant forall s :: 0 <= s < t ==>
        InBounds(shape, Decode(shape, s)) &&
        z[s] == ImageAt(img, batch, depth, h, w, Decode(shape, s))
    {
      var idx := Decode(shape, t);
      DecodeThenEncode(shape, t);
      z[t] := ImageAt(img, batch, depth, h, w, idx);
      t := t + 1;
    }
    forall idx | InBounds(shape, idx)
      ensures 0 <= Encode(shape, idx) < z.Length &&
              z[Encode(shape, idx)] == ImageAt(img, batch, depth, h, w, idx)
    {
      EncodeThenDecode(shape, idx);
    }
  }
}
