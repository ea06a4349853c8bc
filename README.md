# nd4j convolution layout, op taxonomy, transforms and F-measure loss in Dafny

This project models four parts of nd4j, the n-dimensional array library behind
DeepLearning4J, and proves properties of each.

- **Convolution layout and im2col/col2im.**
  - The integer formulas of `Convolution`: `effectiveKernelSize`, `outSize` (with Java's truncating division) and "same"-mode padding.
  - The argument handling and rank checks of the `im2col`/`col2im` entry points.
  - The meaning of im2col and col2im as pure functions over nested sequences. Output cell `[b,c,kh,kw,oh,ow]` reads pixel `(oh*sH + kh*dH - padTop, ow*sW + kw*dW - padLeft)`, or 0 outside the image. col2im scatter-adds each cell back into the pixel it came from.
  - Methods that fill a caller's flat buffer, including through a permuted view. `MixedRadix` supplies row-major offsets and axis permutations.
  - The literal cases of `ConvolutionTests` as lemmas.
  - The coverage theorem: col2im(im2col(p)) multiplies each pixel by the number of patch cells that read it.
  - The adjoint theorem: the inner product of an image with col2im(t) equals that of im2col(image) with t, for every image and patch block. When the windows tile the image, col2im(im2col(p)) is p.
  - The geometry an im2col request describes, in valid and in "same" mode, and the fact that every tap of it lies inside the padded image.
- **Op taxonomy** (`Sum`, `ScalarDivision`, `ACos`, `ACosh`, `TanhDerivative`, `Reverse`, `RectifiedTanh`).
  - Op numbers and names, and the element overloads with their nulls, stubs and exceptions.
  - `opForDimension` as a constructor description, and `doDiff` as an expression tree with an evaluator.
  - `Sum`'s accumulation fold.
  - `BaseIndexAccumulation`: the pair combinator over an abstract `update`, the zero elements, `init` and the constructors as a class.
  - The three-array constructors, Reverse's `init` and TanhDerivative's `exec` as a class whose methods write into `z`.
- **Transforms.**
  - How the elementwise wrappers pick a copy or the caller's array as target, and the freed-array guard of `exec`.
  - The fixed targets of `and`/`or`/`xor`/`not`/`reverse`.
  - `mpow`, with repeated squaring over any associative product, proved to return `in^n`.
- **LossFMeasure.**
  - Constructor and label-width validation.
  - The soft counts, numerator, denominator and score, with the score proved to lie in [0, 1].
  - `computeGradient` as a method over a 2-D array. Each entry of the gradient column (column 0 with one output, column 1 with two) is proved to be the quotient-rule derivative of the score with respect to that row's class-1 probability. With two outputs, column 0 is left 0, as the source leaves it, and no lemma relates it to the score.

Floating-point values are Dafny reals. Numeric kernels are function parameters: acos, acosh, tanh, cosh, square root, complex acos and division, and the elementwise transforms.

## Model

| member | source | states |
|---|---|---|
| ConvolutionLayout.JavaDiv | nd4j-backends/nd4j-api-parent/nd4j-api/src/main/java/org/nd4j/linalg/convolution/Convolution.java:278-280 | Java's int division: the remainder has the dividend's sign and is smaller than the divisor in size |
| ConvolutionLayout.EffectiveKernelSize | nd4j-backends/nd4j-api-parent/nd4j-api/src/main/java/org/nd4j/linalg/convolution/Convolution.java:283-285 | the dilated kernel spans (k-1)*d + 1 rows, and exactly k when d = 1 |
| ConvolutionLayout.EffectiveKernelIsLastTap | nd4j-backends/nd4j-api-parent/nd4j-api/src/main/java/org/nd4j/linalg/convolution/Convolution.java:283-285 | the last tap of a k-tap kernel lies effectiveKernelSize - 1 rows after the first |
| ConvolutionLayout.OutSize | nd4j-backends/nd4j-api-parent/nd4j-api/src/main/java/org/nd4j/linalg/convolution/Convolution.java:274-280 | fails with ArithmeticException exactly when the stride is 0 |
| ConvolutionLayout.OutSizeCountsWindows | nd4j-backends/nd4j-api-parent/nd4j-api/src/main/java/org/nd4j/linalg/convolution/Convolution.java:274-280 | without coverAll, r windows fit inside the padded input and r + 1 do not |
| ConvolutionLayout.OutSizeCoverAllCovers | nd4j-backends/nd4j-api-parent/nd4j-api/src/main/java/org/nd4j/linalg/convolution/Convolution.java:277-278 | with coverAll, the windows reach the end of the padded input and one window fewer would not |
| ConvolutionLayout.CoverAllNotSmaller | nd4j-backends/nd4j-api-parent/nd4j-api/src/main/java/org/nd4j/linalg/convolution/Convolution.java:274-280 | coverAll never gives fewer output positions |
| ConvolutionLayout.OutSizeTapsInsidePadding | nd4j-backends/nd4j-api-parent/nd4j-api/src/main/java/org/nd4j/linalg/convolution/Convolution.java:274-280 | every tap of every valid-mode window lies inside the padded input |
| ConvolutionLayout.CeilDiv | nd4j-backends/nd4j-tests/src/test/java/org/nd4j/linalg/convolution/ConvolutionTests.java:592-593 | ceil(a / s) for a positive stride: (r-1)s < a <= rs |
| ConvolutionLayout.SamePadding | nd4j-backends/nd4j-tests/src/test/java/org/nd4j/linalg/convolution/ConvolutionTests.java:598-604 | same mode: out = ceil(in/s); the pads sum to (out-1)s + kEff - in; the second pad is the first or one more |
| ConvolutionLayout.SamePaddingIsValidOverPadded | nd4j-backends/nd4j-tests/src/test/java/org/nd4j/linalg/convolution/ConvolutionTests.java:598-604 | with the same-mode pads, the valid-mode window count over the padded input is ceil(in/s) |
| ConvolutionLayout.Im2colFromArrays | nd4j-backends/nd4j-api-parent/nd4j-api/src/main/java/org/nd4j/linalg/convolution/Convolution.java:127-130 | kernel, stride and padding are read as [height, width]; dilation 1 and not same mode; a short array fails on indexing |
| ConvolutionLayout.Im2colNoDilation | nd4j-backends/nd4j-api-parent/nd4j-api/src/main/java/org/nd4j/linalg/convolution/Convolution.java:145-147 | the overload without dilation passes dilation 1 in both directions and keeps every other argument |
| ConvolutionLayout.Im2colDilated | nd4j-backends/nd4j-api-parent/nd4j-api/src/main/java/org/nd4j/linalg/convolution/Convolution.java:149-164 | the dilated overload hands kernel, stride, padding, dilation and mode through unchanged |
| ConvolutionLayout.Im2colWithPadValue | nd4j-backends/nd4j-api-parent/nd4j-api/src/main/java/org/nd4j/linalg/convolution/Convolution.java:245-261 | the pad-value overload succeeds and is the no-dilation request |
| ConvolutionLayout.PadValueIgnored | nd4j-backends/nd4j-api-parent/nd4j-api/src/main/java/org/nd4j/linalg/convolution/Convolution.java:245-261 | the pad value never reaches the native op |
| ConvolutionLayout.AxisOf | nd4j-backends/nd4j-tests/src/test/java/org/nd4j/linalg/convolution/ConvolutionTests.java:578-604 | in same mode the output is ceil(in/s), and (out-1)s + kEff is the input plus both pads; otherwise both pads are the requested one, and when the kernel fits, out windows fit inside the padded input and out + 1 do not |
| ConvolutionLayout.GeometryOf | nd4j-backends/nd4j-api-parent/nd4j-api/src/main/java/org/nd4j/linalg/convolution/Convolution.java:149-164 | defined exactly when kernel sizes and dilations are non-negative, strides positive and both output sizes non-negative; kernel, stride and dilation as requested; in same mode the output is ceil(h/sy) x ceil(w/sx) and the leading pads are the same-mode ones, whatever padding was requested; otherwise the leading pads are the requested ones and the output sizes are outSize(..., coverAll = false) |
| ConvolutionLayout.GeometryTapsInsidePadding | nd4j-backends/nd4j-api-parent/nd4j-api/src/main/java/org/nd4j/linalg/convolution/Convolution.java:274-280 | every tap of a request's geometry reads a row between -padTop and h + the trailing pad - 1, and a column likewise; in valid mode this needs the kernel to fit |
| ConvolutionLayout.Col2imChecked | nd4j-backends/nd4j-api-parent/nd4j-api/src/main/java/org/nd4j/linalg/convolution/Convolution.java:82-96 | fails with IllegalArgumentException("col2im input array must be rank 6") exactly for rank other than 6; otherwise dilation 1 |
| ConvolutionLayout.Col2imFromArrays | nd4j-backends/nd4j-api-parent/nd4j-api/src/main/java/org/nd4j/linalg/convolution/Convolution.java:64-66 | stride and padding are read as [height, width] before the rank check; short arrays fail on indexing |
| ConvolutionLayout.Col2imIntoCheck | nd4j-backends/nd4j-api-parent/nd4j-api/src/main/java/org/nd4j/linalg/convolution/Convolution.java:99-103 | no error exactly for col rank 6 and z rank 4; the col check comes first, each with its message |
| ConvolutionLayout.Col2imGeometry | nd4j-backends/nd4j-api-parent/nd4j-api/src/main/java/org/nd4j/linalg/convolution/Convolution.java:99-116 | col2im's geometry: kernel and output sizes from axes 2 to 5 of col's shape, strides, pads and dilations from the request; defined exactly when strides and dilations are non-negative |
| ConvolutionLayout.Col2imUndoesIm2colGeometry | nd4j-backends/nd4j-tests/src/test/java/org/nd4j/linalg/convolution/ConvolutionTests.java:1098-1111 | handing col2im im2col's strides, dilations and image size, the leading pads im2col used, and the shape of its patches gives back im2col's geometry |
| Im2colSpec.TimesIsProduct | nd4j-backends/nd4j-tests/src/test/java/org/nd4j/linalg/convolution/ConvolutionTests.java:623-665 | repeated addition k times step is k*step |
| Im2colSpec.SourceIsAffine | nd4j-backends/nd4j-tests/src/test/java/org/nd4j/linalg/convolution/ConvolutionTests.java:623-665 | a patch cell reads row oh*sH + kh*dH - padTop and column ow*sW + kw*dW - padLeft |
| Im2colSpec.Im2colPlane | nd4j-backends/nd4j-tests/src/test/java/org/nd4j/linalg/convolution/ConvolutionTests.java:623-665 | one channel's im2col has shape [kH, kW, outH, outW]; each cell is its source pixel or 0 in the padding |
| Im2colSpec.Im2col | nd4j-backends/nd4j-tests/src/test/java/org/nd4j/linalg/convolution/ConvolutionTests.java:258-292 | im2col keeps batch and channel counts and applies the channel im2col to every channel |
| Im2colSpec.Im2colShape | nd4j-backends/nd4j-tests/src/test/java/org/nd4j/linalg/convolution/ConvolutionTests.java:258-292 | im2col of a [b, c, h, w] image has shape [b, c, kH, kW, outH, outW] |
| Im2colSpec.Col2imPlane | nd4j-backends/nd4j-tests/src/test/java/org/nd4j/linalg/convolution/ConvolutionTests.java:1037-1059 | col2im of one channel is an h-by-w plane; its meaning for every patch block is pinned down by Col2imAdjoint.Col2imIsAdjoint |
| Im2colSpec.Col2im | nd4j-backends/nd4j-tests/src/test/java/org/nd4j/linalg/convolution/ConvolutionTests.java:1098-1111 | col2im keeps batch and channel counts and applies the channel col2im to every channel, so the adjoint and tiling lemmas of Col2imAdjoint hold channel by channel |
| Im2colSpec.CountOwIs | nd4j-backends/nd4j-tests/src/test/java/org/nd4j/linalg/convolution/ConvolutionTests.java:1037-1059 | with a positive stride, kernel column kw reads image column w at most once, exactly when w + padLeft - kw*dW is a multiple of the stride below the output width |
| Im2colSpec.CountOhIs | nd4j-backends/nd4j-tests/src/test/java/org/nd4j/linalg/convolution/ConvolutionTests.java:1037-1059 | the row counterpart of CountOwIs |
| Im2colSpec.Im2colReadsFrom | nd4j-backends/nd4j-tests/src/test/java/org/nd4j/linalg/convolution/ConvolutionTests.java:623-665 | every in-range cell of im2col holds the pixel it reads |
| Im2colSpec.ScaleIsProduct | nd4j-backends/nd4j-tests/src/test/java/org/nd4j/linalg/convolution/ConvolutionTests.java:1037-1059 | adding v to itself k times gives v*k |
| Im2colSpec.Col2imPixelOfIm2col | nd4j-backends/nd4j-tests/src/test/java/org/nd4j/linalg/convolution/ConvolutionTests.java:1037-1059 | for any patch tensor that reads from p as im2col(p) does, the col2im sum at a pixel is that pixel scaled by its row coverage and then its column coverage |
| Im2colSpec.Col2imOfIm2colPlane | nd4j-backends/nd4j-tests/src/test/java/org/nd4j/linalg/convolution/ConvolutionTests.java:1037-1059 | col2im(im2col(p))[r][c] = p[r][c] * coverH(r) * coverW(c) for every pixel |
| Col2imAdjoint.Col2imIsAdjoint | nd4j-backends/nd4j-api-parent/nd4j-api/src/main/java/org/nd4j/linalg/convolution/Convolution.java:82-96 | col2im is the adjoint of im2col: for every h-by-w plane p and every block of patch cells t, the pixel-by-pixel inner product of p with col2im(t) equals the cell-by-cell inner product of im2col(p) with t |
| Col2imAdjoint.Col2imAdjointOfReader | nd4j-backends/nd4j-api-parent/nd4j-api/src/main/java/org/nd4j/linalg/convolution/Convolution.java:82-96 | the same identity for any block that reads from p as im2col(p) does |
| Col2imAdjoint.TiledRowsCoveredOnce | nd4j-backends/nd4j-api-parent/nd4j-api/src/main/java/org/nd4j/linalg/convolution/Convolution.java:149-164 | with dilation 1, stride equal to the kernel height and no leading padding, every row below outH * stride is read by exactly one (kernel row, output row) pair |
| Col2imAdjoint.TiledColumnsCoveredOnce | nd4j-backends/nd4j-api-parent/nd4j-api/src/main/java/org/nd4j/linalg/convolution/Convolution.java:149-164 | the column counterpart: every column below outW * stride is read exactly once |
| Col2imAdjoint.TiledCol2imUndoesIm2col | nd4j-backends/nd4j-api-parent/nd4j-api/src/main/java/org/nd4j/linalg/convolution/Convolution.java:82-96 | when the windows tile an image they fully reach, col2im(im2col(p)) is p itself; with overlapping windows it is p scaled by the coverages instead |
| ConvolutionInto.TapIsIm2col | nd4j-backends/nd4j-api-parent/nd4j-api/src/main/java/org/nd4j/linalg/convolution/Convolution.java:167-185 | the cell computed from the image at an index is the im2col cell at that index |
| ConvolutionInto.Im2colIntoView | nd4j-backends/nd4j-api-parent/nd4j-api/src/main/java/org/nd4j/linalg/convolution/Convolution.java:167-205 | im2col into a permuted view of a caller's buffer: every view index, read through the permutation, holds the im2col cell with that index |
| ConvolutionInto.Col2imIntoAsWritten | nd4j-backends/nd4j-api-parent/nd4j-api/src/main/java/org/nd4j/linalg/convolution/Convolution.java:99-116 | col2im(col, z, ...) as written: the rank errors, then z returned with its contents untouched |
| ConvolutionInto.Col2imInto | nd4j-backends/nd4j-api-parent/nd4j-api/src/main/java/org/nd4j/linalg/convolution/Convolution.java:99-116 | corrected col2im into z: the same rank errors with z unchanged; otherwise z is returned and every [b, c, h, w] element holds the col2im sum over the geometry Col2imGeometry builds from the request and col's shape |
| ConvolutionInto.Col2imShape | nd4j-backends/nd4j-api-parent/nd4j-api/src/main/java/org/nd4j/linalg/convolution/Convolution.java:99-116 | col2im of a [b, c, ...] patch tensor is a [b, c, h, w] image |
| ConvolutionInto.FillImage | nd4j-backends/nd4j-api-parent/nd4j-api/src/main/java/org/nd4j/linalg/convolution/Convolution.java:99-116 | copying an image into a row-major buffer puts every pixel at its row-major offset |
| ConvolutionTests.WindowOfIm2col | nd4j-backends/nd4j-tests/src/test/java/org/nd4j/linalg/convolution/ConvolutionTests.java:55-178 | a kH x kW window of im2col equals any block whose entries are the source pixels or 0 |
| ConvolutionTests.KnownValuesWindows | nd4j-backends/nd4j-tests/src/test/java/org/nd4j/linalg/convolution/ConvolutionTests.java:119-178 | on the 2x2x3x3 ramp, windows [0,0,:,:,0,0] = [[0,1],[3,4]], [1,1,:,:,1,0] = [[30,31],[33,34]] and [1,1,:,:,1,1] = [[31,32],[34,35]] |
| ConvolutionTests.DilatedWindows | nd4j-backends/nd4j-tests/src/test/java/org/nd4j/linalg/convolution/ConvolutionTests.java:253-292 | dilation 2 on the 4x4 ramp: [0,0,:,:,0,0] = [[0,2],[8,10]] and the example-1 windows of the test |
| ConvolutionTests.DilatedStridedWindows | nd4j-backends/nd4j-tests/src/test/java/org/nd4j/linalg/convolution/ConvolutionTests.java:351-374 | dilation 2, stride 2 on the 5x5 ramp: all four windows, including [0,0,:,:,1,1] = [[12,14],[22,24]] |
| ConvolutionTests.SamePaddingWindows | nd4j-backends/nd4j-tests/src/test/java/org/nd4j/linalg/convolution/ConvolutionTests.java:665-809 | same mode on 3x3 with a 2x2 kernel: windows reaching the padding read 0, e.g. [0,0,:,:,0,2] = [[2,0],[5,0]] |
| ConvolutionTests.SamePaddingCorner | nd4j-backends/nd4j-tests/src/test/java/org/nd4j/linalg/convolution/ConvolutionTests.java:665-809 | same mode on 3x3 with a 2x2 kernel: the bottom-right windows keep one real tap, [0,0,:,:,2,2] = [[8,0],[0,0]] and [1,1,:,:,2,2] = [[35,0],[0,0]] |
| ConvolutionTests.Stride2Windows | nd4j-backends/nd4j-tests/src/test/java/org/nd4j/linalg/convolution/ConvolutionTests.java:907-962 | stride 2, kernel 3, padTop 1: [0,0,:,:,0,0] = [[0,0,0],[0,1,2],[4,5,6]] and three more windows |
| ConvolutionTests.DilatedSameWindows | nd4j-backends/nd4j-tests/src/test/java/org/nd4j/linalg/convolution/ConvolutionTests.java:1216-1268 | dilation 2, pads 1/1 on 4x5: four windows of the test's patch tensor, including corners that read padding |
| ConvolutionTests.Col2imOfIm2colIs | nd4j-backends/nd4j-tests/src/test/java/org/nd4j/linalg/convolution/ConvolutionTests.java:1037-1059 | col2im(im2col(p)) is the plane e whenever e is p scaled pixelwise by the geometry's coverage |
| ConvolutionTests.Stride2RowCoverage | nd4j-backends/nd4j-tests/src/test/java/org/nd4j/linalg/convolution/ConvolutionTests.java:1037-1059 | kernel 3, stride 2, padTop 1 over 3 rows: coverages 1, 2, 1 |
| ConvolutionTests.Stride2ColumnCoverage | nd4j-backends/nd4j-tests/src/test/java/org/nd4j/linalg/convolution/ConvolutionTests.java:1037-1059 | kernel 3, stride 2, padLeft 0 over 4 columns: coverages 1, 1, 2, 1 |
| ConvolutionTests.DilatedSameRowCoverage | nd4j-backends/nd4j-tests/src/test/java/org/nd4j/linalg/convolution/ConvolutionTests.java:1288-1297 | kernel 2, dilation 2, pad 1 over 4 rows: coverages 1, 2, 2, 1 |
| ConvolutionTests.DilatedSameColumnCoverage | nd4j-backends/nd4j-tests/src/test/java/org/nd4j/linalg/convolution/ConvolutionTests.java:1288-1297 | the same over 5 columns: coverages 1, 2, 2, 2, 1 |
| ConvolutionTests.Stride2Coverage | nd4j-backends/nd4j-tests/src/test/java/org/nd4j/linalg/convolution/ConvolutionTests.java:1037-1059 | the row and column coverages of the stride-2 test together |
| ConvolutionTests.DilatedSameCoverage | nd4j-backends/nd4j-tests/src/test/java/org/nd4j/linalg/convolution/ConvolutionTests.java:1288-1297 | the row and column coverages of the dilated test together |
| ConvolutionTests.Stride2ExpectedIsScaled | nd4j-backends/nd4j-tests/src/test/java/org/nd4j/linalg/convolution/ConvolutionTests.java:1098-1107 | the expected stride-2 image is the input times its coverages, in both channels |
| ConvolutionTests.Stride2Col2imUnder | nd4j-backends/nd4j-tests/src/test/java/org/nd4j/linalg/convolution/ConvolutionTests.java:1098-1111 | any geometry with the stride-2 test's parameters maps the input's im2col back to [[0,1,4,3],[8,10,24,14],[8,9,20,11]] and the channel-1 image |
| ConvolutionTests.Stride2Col2im | nd4j-backends/nd4j-tests/src/test/java/org/nd4j/linalg/convolution/ConvolutionTests.java:1098-1111 | col2im of the stride-2 test's im2col is the expected image |
| ConvolutionTests.DilatedSameExpectedIsScaled | nd4j-backends/nd4j-tests/src/test/java/org/nd4j/linalg/convolution/ConvolutionTests.java:1288-1297 | the expected dilated image is the input times its coverages |
| ConvolutionTests.DilatedSameCol2imUnder | nd4j-backends/nd4j-tests/src/test/java/org/nd4j/linalg/convolution/ConvolutionTests.java:1288-1297 | any geometry with the dilated test's parameters maps the input's im2col back to the expected image |
| ConvolutionTests.DilatedSameCol2im | nd4j-backends/nd4j-tests/src/test/java/org/nd4j/linalg/convolution/ConvolutionTests.java:1288-1297 | col2im of the dilated test's im2col is [[0,2,4,6,4],[10,24,28,32,18],[20,44,48,52,28],[15,32,34,36,19]] |
| ConvolutionTests.Col2imIntoAsWrittenKeepsZeros | nd4j-backends/nd4j-tests/src/test/java/org/nd4j/linalg/convolution/ConvolutionTests.java:1108-1111 | col2im(col, z, ...) as written returns 0 at [0,0,1,0], where the test expects 8 |
| ConvolutionTests.Col2imIntoFillsExpected | nd4j-backends/nd4j-tests/src/test/java/org/nd4j/linalg/convolution/ConvolutionTests.java:1108-1111 | corrected col2im into a zero buffer fills it with the expected stride-2 image |
| ConvolutionTests.KnownValuesLastWindow | nd4j-backends/nd4j-tests/src/test/java/org/nd4j/linalg/convolution/ConvolutionTests.java:170-178 | for any geometry with the test's parameters, window [1,1,:,:,1,1] of im2col is [[31,32],[34,35]] |
| ConvolutionTests.KnownValuesIntoView | nd4j-backends/nd4j-tests/src/test/java/org/nd4j/linalg/convolution/ConvolutionTests.java:180-189 | im2col into out2.permute(0,1,4,5,2,3) or out3.permute(0,3,4,5,1,2) shows [[31,32],[34,35]] at [1,1,:,:,1,1] of the view |
| ConvolutionTests.OutSizeKnownValue | nd4j-backends/nd4j-tests/src/test/java/org/nd4j/linalg/convolution/ConvolutionTests.java:1302-1306 | outSize(2, 1, 1, 2, 1, false) = 6 |
| ConvolutionTests.SamePaddingKernel2 | nd4j-backends/nd4j-tests/src/test/java/org/nd4j/linalg/convolution/ConvolutionTests.java:582-604 | 3 inputs, kernel 2, stride 1: output 3, pads 0 and 1 |
| ConvolutionTests.SamePaddingStride2Rows | nd4j-backends/nd4j-tests/src/test/java/org/nd4j/linalg/convolution/ConvolutionTests.java:851-862 | 3 rows, kernel 3, stride 2: output 2, pads 1 and 1 |
| ConvolutionTests.SamePaddingStride2Cols | nd4j-backends/nd4j-tests/src/test/java/org/nd4j/linalg/convolution/ConvolutionTests.java:864-869 | 4 columns, kernel 3, stride 2: output 2, pads 0 and 1 |
| ConvolutionTests.SamePaddingDilatedRows | nd4j-backends/nd4j-tests/src/test/java/org/nd4j/linalg/convolution/ConvolutionTests.java:1135-1149 | 4 rows, kernel 2, dilation 2, stride 1: output 4, pads 1 and 1 |
| ConvolutionTests.SamePaddingDilatedCols | nd4j-backends/nd4j-tests/src/test/java/org/nd4j/linalg/convolution/ConvolutionTests.java:1141-1156 | 5 columns, kernel 2, dilation 2, stride 1: output 5, pads 1 and 1 |
| ConvolutionTests.KnownGeometryOfRequest | nd4j-backends/nd4j-tests/src/test/java/org/nd4j/linalg/convolution/ConvolutionTests.java:95-177 | im2col(input, 2, 2, 1, 1, 0, 0, false) on 3x3 describes the known-values geometry: 2x2 outputs, no padding |
| ConvolutionTests.DilatedGeometryOfRequest | nd4j-backends/nd4j-tests/src/test/java/org/nd4j/linalg/convolution/ConvolutionTests.java:237-291 | im2col(input, 2, 2, 1, 1, 0, 0, 2, 2, false) on 4x4 describes 2x2 outputs with dilation 2 |
| ConvolutionTests.DilatedStridedGeometryOfRequest | nd4j-backends/nd4j-tests/src/test/java/org/nd4j/linalg/convolution/ConvolutionTests.java:335-373 | im2col(input, 2, 2, 2, 2, 0, 0, 2, 2, false) on 5x5 describes 2x2 outputs with stride and dilation 2 |
| ConvolutionTests.SameGeometryOfRequest | nd4j-backends/nd4j-tests/src/test/java/org/nd4j/linalg/convolution/ConvolutionTests.java:584-787 | im2col(input, 2, 2, 1, 1, 0, 0, true) on 3x3 describes 3x3 outputs with leading pads 0 |
| ConvolutionTests.Stride2GeometryOfRequest | nd4j-backends/nd4j-tests/src/test/java/org/nd4j/linalg/convolution/ConvolutionTests.java:843-940 | im2col(input, 3, 3, 2, 2, 1, 0, true) on 3x4 describes 2x2 outputs with padTop 1 and padLeft 0 |
| ConvolutionTests.DilatedSameGeometryOfRequest | nd4j-backends/nd4j-tests/src/test/java/org/nd4j/linalg/convolution/ConvolutionTests.java:1125-1268 | im2col(input, 2, 2, 1, 1, 1, 1, 2, 2, true) on 4x5 describes 4x5 outputs with leading pads 1 and 1 |
| Transforms.GuardFiresExactly | nd4j-backends/nd4j-api-parent/nd4j-api/src/main/java/org/nd4j/linalg/ops/transforms/Transforms.java:1014-1030 | a freed array is refused exactly by the wrappers that go through exec, and with dup only by those whose op keeps the caller's array as x; a live array is never refused |
| Transforms.ApplyTransform | nd4j-backends/nd4j-api-parent/nd4j-api/src/main/java/org/nd4j/linalg/ops/transforms/Transforms.java:513-522 | a wrapper w(in, dup) either fails with IllegalStateException("NDArray already freed"), leaving in untouched, or maps the kernel over in's old contents; with dup into a fresh array (in unchanged), without dup into in itself |
| Transforms.OneArgumentCall | nd4j-backends/nd4j-api-parent/nd4j-api/src/main/java/org/nd4j/linalg/ops/transforms/Transforms.java:441-463 | one-argument forms pass copyOnOps except abs, which always copies; step, softsign and softsignDerivative run softPlus, and sigmoidDerivative runs sigmoid |
| Transforms.OneArgumentKeepsRouting | nd4j-backends/nd4j-api-parent/nd4j-api/src/main/java/org/nd4j/linalg/ops/transforms/Transforms.java:441-463 | a misrouted one-argument form is guarded exactly when the form it names is |
| Transforms.ApplyOneArgument | nd4j-backends/nd4j-api-parent/nd4j-api/src/main/java/org/nd4j/linalg/ops/transforms/Transforms.java:493-495 | w(in) runs the kernel of the wrapper it is routed to, with that wrapper's guard and copy flag |
| Transforms.Compare | nd4j-backends/nd4j-api-parent/nd4j-api/src/main/java/org/nd4j/linalg/ops/transforms/Transforms.java:711-733 | greaterThanOrEqual/lessThanOrEqual: the guard checks first (or its live copy); the result combines first's and the other array's old contents, in a fresh array with dup and in first without |
| Transforms.PairwiseExtremum | nd4j-backends/nd4j-api-parent/nd4j-api/src/main/java/org/nd4j/linalg/ops/transforms/Transforms.java:794-868 | max/min(first, second, dup): the guard checks second; the result combines second's and first's old contents, in a fresh copy with dup and in first without |
| Transforms.PowArray | nd4j-backends/nd4j-api-parent/nd4j-api/src/main/java/org/nd4j/linalg/ops/transforms/Transforms.java:573-576 | pow with an array exponent refuses a freed array, otherwise always writes into ndArray |
| Transforms.Logical | nd4j-backends/nd4j-api-parent/nd4j-api/src/main/java/org/nd4j/linalg/ops/transforms/Transforms.java:982-998 | and/or/xor write into a fresh array with x's shape and ordering |
| Transforms.Not | nd4j-backends/nd4j-api-parent/nd4j-api/src/main/java/org/nd4j/linalg/ops/transforms/Transforms.java:1000-1004 | not writes into a fresh array with x's shape and ordering |
| Transforms.Reverse | nd4j-backends/nd4j-api-parent/nd4j-api/src/main/java/org/nd4j/linalg/ops/transforms/Transforms.java:95-98 | reverse gives x's old contents reversed: in a fresh array of x's shape and ordering with dup (x untouched), in x itself without |
| Transforms.ReverseTwiceInPlace | nd4j-backends/nd4j-api-parent/nd4j-api/src/main/java/org/nd4j/linalg/ops/transforms/Transforms.java:95-98 | reversing in place twice restores the array |
| MatrixPower.PowerAdd | nd4j-backends/nd4j-api-parent/nd4j-api/src/main/java/org/nd4j/linalg/ops/transforms/Transforms.java:1066-1073 | m^a * m^b = m^(a+b) for an associative product |
| MatrixPower.SquareStep | nd4j-backends/nd4j-api-parent/nd4j-api/src/main/java/org/nd4j/linalg/ops/transforms/Transforms.java:1068-1069 | squaring m^(2^k) gives m^(2^(k+1)) |
| MatrixPower.Log2Floor | nd4j-backends/nd4j-api-parent/nd4j-api/src/main/java/org/nd4j/linalg/ops/transforms/Transforms.java:1068 | the square count: the largest s with 2^s <= n |
| MatrixPower.Log2FloorLeavesFewMultiplications | nd4j-backends/nd4j-api-parent/nd4j-api/src/main/java/org/nd4j/linalg/ops/transforms/Transforms.java:1068-1071 | for n >= 4 that count is at least 2 and leaves fewer than 2^s multiplications |
| MatrixPower.MPow | nd4j-backends/nd4j-api-parent/nd4j-api/src/main/java/org/nd4j/linalg/ops/transforms/Transforms.java:1043-1077 | mpow returns the identity for n = 0, in^n for n > 0 and (in^-1)^-n for n < 0; dup leaves in unchanged and returns a fresh matrix, no dup assigns the result into in and returns it |
| MatrixPower.RepeatedSquaring | nd4j-backends/nd4j-api-parent/nd4j-api/src/main/java/org/nd4j/linalg/ops/transforms/Transforms.java:1057-1073 | the product loops of mpow return temp^k: k - 1 multiplications below 4, otherwise the squarings and then the remaining multiplications |
| SumAccumulation.UpdateWithY | nd4j-backends/nd4j-api-parent/nd4j-api/src/main/java/org/nd4j/linalg/api/ops/impl/accum/Sum.java:73-86 | the three-argument update moves the accumulator by exactly x |
| SumAccumulation.ComplexAdd | nd4j-backends/nd4j-api-parent/nd4j-api/src/main/java/org/nd4j/linalg/api/ops/impl/accum/Sum.java:88-111 | the complex add moves both parts by those of the addend |
| SumAccumulation.ComplexUpdateReal | nd4j-backends/nd4j-api-parent/nd4j-api/src/main/java/org/nd4j/linalg/api/ops/impl/accum/Sum.java:88-96 | a real x moves only the real part, by x |
| SumAccumulation.ComplexUpdate | nd4j-backends/nd4j-api-parent/nd4j-api/src/main/java/org/nd4j/linalg/api/ops/impl/accum/Sum.java:98-111 | a complex x moves each part by its own |
| SumAccumulation.UpdateIgnoresY | nd4j-backends/nd4j-api-parent/nd4j-api/src/main/java/org/nd4j/linalg/api/ops/impl/accum/Sum.java:68-86 | the second operand never matters, and the three-argument update is the two-argument one |
| SumAccumulation.ComplexUpdateAgreesWithReal | nd4j-backends/nd4j-api-parent/nd4j-api/src/main/java/org/nd4j/linalg/api/ops/impl/accum/Sum.java:88-101 | the complex update with a real x agrees with the complex one with x + 0i and with the real update on the real part |
| SumAccumulation.FoldAddsSum | nd4j-backends/nd4j-api-parent/nd4j-api/src/main/java/org/nd4j/linalg/api/ops/impl/accum/Sum.java:68-71 | folding update from any accumulator adds the sum of the elements |
| SumAccumulation.FoldIsSum | nd4j-backends/nd4j-api-parent/nd4j-api/src/main/java/org/nd4j/linalg/api/ops/impl/accum/Sum.java:68-71 | folding from zero gives the sum |
| SumAccumulation.FoldConcat | nd4j-backends/nd4j-api-parent/nd4j-api/src/main/java/org/nd4j/linalg/api/ops/impl/accum/Sum.java:68-71 | folding a concatenation folds the second part from the first part's result |
| SumAccumulation.FoldSwap | nd4j-backends/nd4j-api-parent/nd4j-api/src/main/java/org/nd4j/linalg/api/ops/impl/accum/Sum.java:68-71 | the fold does not depend on the order of the two parts |
| SumAccumulation.SumConcat | nd4j-backends/nd4j-api-parent/nd4j-api/src/main/java/org/nd4j/linalg/api/ops/impl/accum/Sum.java:68-71 | the sum of a concatenation is the sum of the sums |
| SumAccumulation.FoldWithYIsFold | nd4j-backends/nd4j-api-parent/nd4j-api/src/main/java/org/nd4j/linalg/api/ops/impl/accum/Sum.java:73-86 | the three-argument fold ignores y entirely |
| SumAccumulation.ComplexFoldComponents | nd4j-backends/nd4j-api-parent/nd4j-api/src/main/java/org/nd4j/linalg/api/ops/impl/accum/Sum.java:98-101 | the complex fold's real part is the real fold of the elements' real parts (`Re`), and its imaginary part that of their imaginary parts (`Im`) |
| OpTaxonomy.NamesIdentify | nd4j-backends/nd4j-api-parent/nd4j-api/src/main/java/org/nd4j/linalg/api/ops/impl/accum/Sum.java:114-122 | names tell the seven classes apart, both ways (the names are those of each class's name(): Sum.java:114-122, ScalarDivision.java:72-80, ACos.java:70-78, ACosh.java:71-79, TanhDerivative.java:51-64, Reverse.java:78-91, RectifiedTanh.java:75-83) |
| OpTaxonomy.OpNumbersClashOnlyForAcos | nd4j-backends/nd4j-api-parent/nd4j-api/src/main/java/org/nd4j/linalg/api/ops/impl/transforms/ACosh.java:71-75 | within one op family, two classes share an op number exactly when they are ACos and ACosh (both 16) |
| OpTaxonomy.ReverseMetadata | nd4j-backends/nd4j-api-parent/nd4j-api/src/main/java/org/nd4j/linalg/api/ops/impl/transforms/Reverse.java:78-91 | Reverse is op 70, "reverse", and the only class here declaring isExecSpecial true |
| OpTaxonomy.SecondOperandIgnored | nd4j-backends/nd4j-api-parent/nd4j-api/src/main/java/org/nd4j/linalg/api/ops/impl/transforms/ACos.java:95-118 | no overload of any class looks at its second operand |
| OpTaxonomy.SumComplexOverloadsAreNull | nd4j-backends/nd4j-api-parent/nd4j-api/src/main/java/org/nd4j/linalg/api/ops/impl/accum/Sum.java:124-142 | Sum declares exactly the complex overloads, and each returns null |
| OpTaxonomy.ScalarDivisionDivides | nd4j-backends/nd4j-api-parent/nd4j-api/src/main/java/org/nd4j/linalg/api/ops/impl/scalar/ScalarDivision.java:82-128 | a real result times the scalar gives the operand back; null-pointer failure exactly when the scalar the overload reads is unset; complex overloads divide by the complex scalar |
| OpTaxonomy.ACosOverloads | nd4j-backends/nd4j-api-parent/nd4j-api/src/main/java/org/nd4j/linalg/api/ops/impl/transforms/ACos.java:80-118 | real overloads give acos of the first operand, complex ones complex acos of it |
| OpTaxonomy.ACoshRefusesComplex | nd4j-backends/nd4j-api-parent/nd4j-api/src/main/java/org/nd4j/linalg/api/ops/impl/transforms/ACosh.java:81-119 | exactly the complex overloads throw UnsupportedOperationException; real ones give acosh |
| OpTaxonomy.ReverseRefusesAll | nd4j-backends/nd4j-api-parent/nd4j-api/src/main/java/org/nd4j/linalg/api/ops/impl/transforms/Reverse.java:93-126 | all eight overloads throw UnsupportedOperationException |
| OpTaxonomy.RectifiedTanhIsStub | nd4j-backends/nd4j-api-parent/nd4j-api/src/main/java/org/nd4j/linalg/api/ops/impl/transforms/RectifiedTanh.java:85-123 | real overloads return 0 and complex overloads null |
| OpTaxonomy.OpForDimension | nd4j-backends/nd4j-api-parent/nd4j-api/src/main/java/org/nd4j/linalg/api/ops/impl/accum/Sum.java:144-163 | the sub-op is over the x sub-view. Its class is the op's own except for TanhDerivative, which gives SoftMaxDerivative (TanhDerivative.java:75-106). y's sub-view is passed exactly when y exists, except for ScalarDivision (ScalarDivision.java:130-144), which passes neither y, z nor n and keeps the real scalar if set, else the complex one. Sum passes no z and adds n only with y. The transforms add the z sub-view and the x sub-view's length |
| OpTaxonomy.Derivative | nd4j-backends/nd4j-api-parent/nd4j-api/src/main/java/org/nd4j/linalg/api/ops/impl/transforms/RectifiedTanh.java:125-128 | only RectifiedTanh declares derivative(), which gives a RationalTanhDerivative over the same x, y, z and n |
| OpTaxonomy.DoDiff | nd4j-backends/nd4j-api-parent/nd4j-api/src/main/java/org/nd4j/linalg/api/ops/impl/accum/Sum.java:168-176 | null exactly for Reverse and RectifiedTanh (Reverse.java:162-165, RectifiedTanh.java:155-158), otherwise a single node; Sum's is repeat(grad, arg, dimensions) |
| OpTaxonomy.DoDiffAsWritten | nd4j-backends/nd4j-api-parent/nd4j-api/src/main/java/org/nd4j/linalg/api/ops/impl/scalar/ScalarDivision.java:147-152 | the nodes as the source builds them: grad*scalar/arg^2 for ScalarDivision, 1/sqrt(1-arg^2) for ACos (ACos.java:145-151), the corrected doDiff otherwise |
| OpTaxonomy.GradientUse | nd4j-backends/nd4j-api-parent/nd4j-api/src/main/java/org/nd4j/linalg/api/ops/impl/transforms/ACos.java:145-151 | only Sum's and ScalarDivision's nodes use the incoming gradient; ACos, ACosh and TanhDerivative ignore it |
| OpTaxonomy.DivisionSlopeIsReciprocal | nd4j-backends/nd4j-api-parent/nd4j-api/src/main/java/org/nd4j/linalg/api/ops/impl/scalar/ScalarDivision.java:103-121 | every difference quotient of x -> x/s is 1/s |
| OpTaxonomy.EvalLeaves | nd4j-backends/nd4j-api-parent/nd4j-api/src/main/java/org/nd4j/linalg/api/ops/impl/scalar/ScalarDivision.java:147-152 | the leaves evaluate to the argument, 1, the scalar and the first gradient |
| OpTaxonomy.ScalarDivisionGradIsChainRule | nd4j-backends/nd4j-api-parent/nd4j-api/src/main/java/org/nd4j/linalg/api/ops/impl/scalar/ScalarDivision.java:147-152 | the corrected node is the incoming gradient times the slope of x/scalar |
| OpTaxonomy.CorrectedValue | nd4j-backends/nd4j-api-parent/nd4j-api/src/main/java/org/nd4j/linalg/api/ops/impl/scalar/ScalarDivision.java:147-152 | the corrected node evaluates to g/s |
| OpTaxonomy.AsWrittenValue | nd4j-backends/nd4j-api-parent/nd4j-api/src/main/java/org/nd4j/linalg/api/ops/impl/scalar/ScalarDivision.java:147-152 | the source's node evaluates to g*s/x^2 |
| OpTaxonomy.ScalarDivisionGradAsWrittenAgreesOnlyAtSquare | nd4j-backends/nd4j-api-parent/nd4j-api/src/main/java/org/nd4j/linalg/api/ops/impl/scalar/ScalarDivision.java:147-152 | for nonzero x, g and s the source's node equals the corrected one exactly when x^2 = s^2 |
| OpTaxonomy.QuotientsAgree | nd4j-backends/nd4j-api-parent/nd4j-api/src/main/java/org/nd4j/linalg/api/ops/impl/scalar/ScalarDivision.java:147-152 | g*s/x^2 = g/s exactly when x^2 = s^2, for nonzero g, s and x |
| OpTaxonomy.ScalarDivisionGradAsWrittenCounterexample | nd4j-backends/nd4j-api-parent/nd4j-api/src/main/java/org/nd4j/linalg/api/ops/impl/scalar/ScalarDivision.java:147-152 | at x = 1, scalar 2, gradient 1 the source's node gives 2 while the slope is 1/2 |
| OpTaxonomy.SumGradIsIncoming | nd4j-backends/nd4j-api-parent/nd4j-api/src/main/java/org/nd4j/linalg/api/ops/impl/accum/Sum.java:168-176 | Sum's node evaluates to the incoming gradient |
| OpTaxonomy.ACosGradAsWrittenValue | nd4j-backends/nd4j-api-parent/nd4j-api/src/main/java/org/nd4j/linalg/api/ops/impl/transforms/ACos.java:145-151 | the source's acos node evaluates to 1/sqrt(1-x^2) |
| OpTaxonomy.ACosGradValue | nd4j-backends/nd4j-api-parent/nd4j-api/src/main/java/org/nd4j/linalg/api/ops/impl/transforms/ACos.java:145-151 | the corrected acos node evaluates to -1/sqrt(1-x^2) |
| OpTaxonomy.FallingSlopeNegative | nd4j-backends/nd4j-api-parent/nd4j-api/src/main/java/org/nd4j/linalg/api/ops/impl/transforms/ACos.java:145-151 | a function falling on [-1, 1] has only negative difference quotients there |
| OpTaxonomy.ACosGradSign | nd4j-backends/nd4j-api-parent/nd4j-api/src/main/java/org/nd4j/linalg/api/ops/impl/transforms/ACos.java:145-151 | with acos falling and a positive root, the corrected node is negative like every difference quotient of acos, and the source's node is positive |
| OpTaxonomy.ACosGradAsWrittenCounterexample | nd4j-backends/nd4j-api-parent/nd4j-api/src/main/java/org/nd4j/linalg/api/ops/impl/transforms/ACos.java:145-151 | at x = 0 the source's node gives +1 while acos falls on both sides of 0 |
| OpTaxonomy.ACoshGradValue | nd4j-backends/nd4j-api-parent/nd4j-api/src/main/java/org/nd4j/linalg/api/ops/impl/transforms/ACosh.java:147-154 | the acosh node evaluates to 1/(sqrt(x-1) sqrt(x+1)) |
| OpTaxonomy.TanhDerivativeGradValue | nd4j-backends/nd4j-api-parent/nd4j-api/src/main/java/org/nd4j/linalg/api/ops/impl/transforms/gradient/TanhDerivative.java:122-127 | the tanhderivative node evaluates to 1/cosh(x)^2 |
| OpInstances.OpInstance.ThreeArrays | nd4j-backends/nd4j-api-parent/nd4j-api/src/main/java/org/nd4j/linalg/api/ops/impl/transforms/gradient/TanhDerivative.java:38-40 | the three-array constructor stores x, y and z; n is z's length for TanhDerivative and x's for Sum, Reverse (Reverse.java:70-72) and RectifiedTanh (RectifiedTanh.java:67-69); the class's init runs, so exactly a Reverse op is a pass-through (Reverse.java:155-159) |
| OpInstances.OpInstance.Init | nd4j-backends/nd4j-api-parent/nd4j-api/src/main/java/org/nd4j/linalg/api/ops/impl/transforms/Reverse.java:155-159 | init stores x, y, z and n; Reverse then sets passThrough, other classes leave it |
| OpInstances.OpInstance.ExecTanhDerivative | nd4j-backends/nd4j-api-parent/nd4j-api/src/main/java/org/nd4j/linalg/api/ops/impl/transforms/gradient/TanhDerivative.java:108-114 | without y, exec fails with a null dereference and z is unchanged; otherwise z holds (1 - tanh(x)^2) * y for x's and y's old contents |
| OpInstances.TanhGradient | nd4j-backends/nd4j-api-parent/nd4j-api/src/main/java/org/nd4j/linalg/api/ops/impl/transforms/gradient/TanhDerivative.java:108-114 | elementwise (1 - tanh(x)^2) * y |
| OpInstances.OneMinusSquareOfTanh | nd4j-backends/nd4j-api-parent/nd4j-api/src/main/java/org/nd4j/linalg/api/ops/impl/transforms/gradient/TanhDerivative.java:108-114 | with tanh = sinh/cosh and cosh^2 - sinh^2 = 1: 1 - tanh^2 = 1/cosh^2 |
| OpInstances.ExecElementIsChainRule | nd4j-backends/nd4j-api-parent/nd4j-api/src/main/java/org/nd4j/linalg/api/ops/impl/transforms/gradient/TanhDerivative.java:108-127 | the value exec writes is y times the value of the doDiff node |
| IndexAccumulation.FromFunction | nd4j-backends/nd4j-api-parent/nd4j-api/src/main/java/org/nd4j/linalg/api/ops/BaseIndexAccumulation.java:15-28 | a null input fails with IllegalArgumentException("Input not null variable."); otherwise the node and dimensions are kept |
| IndexAccumulation.FromFunctions | nd4j-backends/nd4j-api-parent/nd4j-api/src/main/java/org/nd4j/linalg/api/ops/BaseIndexAccumulation.java:30-45 | the constructor's own null check covers only the first node; both nodes are kept in order; the graph validation run on the second node is not modelled |
| IndexAccumulation.SecondNodeUnchecked | nd4j-backends/nd4j-api-parent/nd4j-api/src/main/java/org/nd4j/linalg/api/ops/BaseIndexAccumulation.java:30-45 | the constructor's own null check lets a null second node through and keeps it; what the validation it then runs on the second node does with null is not modelled |
| IndexAccumulation.ZeroPair | nd4j-backends/nd4j-api-parent/nd4j-api/src/main/java/org/nd4j/linalg/api/ops/BaseIndexAccumulation.java:87-90 | zeroPair is zeroDouble with a negative index (-1) |
| IndexAccumulation.ZeroComplex | nd4j-backends/nd4j-api-parent/nd4j-api/src/main/java/org/nd4j/linalg/api/ops/BaseIndexAccumulation.java:92-95 | zeroComplex is 0 + 0i |
| IndexAccumulation.InitArguments | nd4j-backends/nd4j-api-parent/nd4j-api/src/main/java/org/nd4j/linalg/api/ops/BaseIndexAccumulation.java:101-111 | init sets extraArgs to [zero] for DOUBLE, FLOAT and HALF, leaves it for other types, and running it twice changes nothing more |
| IndexAccumulation.CombineIndices | nd4j-backends/nd4j-api-parent/nd4j-api/src/main/java/org/nd4j/linalg/api/ops/BaseIndexAccumulation.java:113-121 | the scalar combine returns the index update picks |
| IndexAccumulation.CombinePairs | nd4j-backends/nd4j-api-parent/nd4j-api/src/main/java/org/nd4j/linalg/api/ops/BaseIndexAccumulation.java:123-129 | the pair combine returns one of its arguments unchanged: first exactly when update yields first's index |
| IndexAccumulation.EqualIndicesFirstWins | nd4j-backends/nd4j-api-parent/nd4j-api/src/main/java/org/nd4j/linalg/api/ops/BaseIndexAccumulation.java:125-128 | on equal indices first wins when update answers with that index, second otherwise |
| IndexAccumulation.PairAndScalarCombineAgree | nd4j-backends/nd4j-api-parent/nd4j-api/src/main/java/org/nd4j/linalg/api/ops/BaseIndexAccumulation.java:113-129 | when update picks one of the two indices, the pair and scalar combines agree on it |
| IndexAccumulation.CombineAssociative | nd4j-backends/nd4j-api-parent/nd4j-api/src/main/java/org/nd4j/linalg/api/ops/BaseIndexAccumulation.java:123-129 | for an update choosing the strictly better value, the winner of three distinct indices does not depend on grouping |
| IndexAccumulation.CombineKeepsBest | nd4j-backends/nd4j-api-parent/nd4j-api/src/main/java/org/nd4j/linalg/api/ops/BaseIndexAccumulation.java:123-129 | for such an update and distinct indices, neither argument is better than the winner |
| IndexAccumulation.IndexAccumulationOp.constructor | nd4j-backends/nd4j-api-parent/nd4j-api/src/main/java/org/nd4j/linalg/api/ops/BaseIndexAccumulation.java:60-63 | the array constructor ends with z = x and n = length of x whatever was passed, extraArgs set by init, finalResult 0 |
| IndexAccumulation.IndexAccumulationOp.Init | nd4j-backends/nd4j-api-parent/nd4j-api/src/main/java/org/nd4j/linalg/api/ops/BaseIndexAccumulation.java:101-111 | init stores the four fields and installs the zero of the data type, leaving finalResult |
| IndexAccumulation.IndexAccumulationOp.SetFinalResult | nd4j-backends/nd4j-api-parent/nd4j-api/src/main/java/org/nd4j/linalg/api/ops/BaseIndexAccumulation.java:131-134 | getFinalResult then yields idx, and nothing else changes |
| IndexAccumulation.IndexAccumulationOp.WithCount | nd4j-backends/nd4j-api-parent/nd4j-api/src/main/java/org/nd4j/linalg/api/ops/BaseIndexAccumulation.java:65-67 | this(x, y, x, n): z is x and n becomes x's length |
| IndexAccumulation.IndexAccumulationOp.Over | nd4j-backends/nd4j-api-parent/nd4j-api/src/main/java/org/nd4j/linalg/api/ops/BaseIndexAccumulation.java:69-71 | this(x, null, x, x.length()) |
| IndexAccumulation.IndexAccumulationOp.OverPair | nd4j-backends/nd4j-api-parent/nd4j-api/src/main/java/org/nd4j/linalg/api/ops/BaseIndexAccumulation.java:73-75 | this(x, y, x, x.length()) |
| IndexAccumulation.FinalResultRoundTrip | nd4j-backends/nd4j-api-parent/nd4j-api/src/main/java/org/nd4j/linalg/api/ops/BaseIndexAccumulation.java:131-139 | setFinalResult(i) followed by getFinalResult() gives i |
| LossFMeasure.Decimal | nd4j-backends/nd4j-api-parent/nd4j-api/src/main/java/org/nd4j/linalg/lossfunctions/impl/LossFMeasure.java:80-81 | the decimal rendering of the width in the error message is a nonempty string of digits |
| LossFMeasure.NewLoss | nd4j-backends/nd4j-api-parent/nd4j-api/src/main/java/org/nd4j/linalg/lossfunctions/impl/LossFMeasure.java:51-56 | beta <= 0 fails with UnsupportedOperationException and its message; otherwise the loss keeps beta |
| LossFMeasure.DefaultLossIsF1 | nd4j-backends/nd4j-api-parent/nd4j-api/src/main/java/org/nd4j/linalg/lossfunctions/impl/LossFMeasure.java:43-49 | the no-argument loss has beta 1 |
| LossFMeasure.Not | nd4j-backends/nd4j-api-parent/nd4j-api/src/main/java/org/nd4j/linalg/lossfunctions/impl/LossFMeasure.java:91 | not(label) is 1 exactly for a zero label and 0 otherwise |
| LossFMeasure.FractionOf | nd4j-backends/nd4j-api-parent/nd4j-api/src/main/java/org/nd4j/linalg/lossfunctions/impl/LossFMeasure.java:110-111 | den = num + beta^2 fn + fp |
| LossFMeasure.NumDenom | nd4j-backends/nd4j-api-parent/nd4j-api/src/main/java/org/nd4j/linalg/lossfunctions/impl/LossFMeasure.java:74-114 | a width other than 1 or 2 fails with its message; otherwise the numerator and denominator of the masked soft counts |
| LossFMeasure.ScoreOf | nd4j-backends/nd4j-api-parent/nd4j-api/src/main/java/org/nd4j/linalg/lossfunctions/impl/LossFMeasure.java:63-71 | 0 for 0/0; 1 - num/den for a nonzero den; non-finite exactly for den = 0 with num != 0 |
| LossFMeasure.ComputeScore | nd4j-backends/nd4j-api-parent/nd4j-api/src/main/java/org/nd4j/linalg/lossfunctions/impl/LossFMeasure.java:60-72 | fails exactly for a bad width; otherwise the score of the fraction |
| LossFMeasure.ComputeScoreArray | nd4j-backends/nd4j-api-parent/nd4j-api/src/main/java/org/nd4j/linalg/lossfunctions/impl/LossFMeasure.java:116-120 | always fails with UnsupportedOperationException and its message |
| LossFMeasure.RowCountsNonnegative | nd4j-backends/nd4j-api-parent/nd4j-api/src/main/java/org/nd4j/linalg/lossfunctions/impl/LossFMeasure.java:84-108 | a row of probabilities with a non-negative mask weight adds non-negative counts |
| LossFMeasure.TallyNonnegative | nd4j-backends/nd4j-api-parent/nd4j-api/src/main/java/org/nd4j/linalg/lossfunctions/impl/LossFMeasure.java:106-108 | with probabilities and a non-negative mask, tp, fp and fn are non-negative |
| LossFMeasure.FractionOrdered | nd4j-backends/nd4j-api-parent/nd4j-api/src/main/java/org/nd4j/linalg/lossfunctions/impl/LossFMeasure.java:110-111 | non-negative counts and beta > 0 give 0 <= num <= den |
| LossFMeasure.ScoreOfBounded | nd4j-backends/nd4j-api-parent/nd4j-api/src/main/java/org/nd4j/linalg/lossfunctions/impl/LossFMeasure.java:63-71 | 0 <= num <= den gives a finite score in [0, 1] |
| LossFMeasure.ScoreInUnitInterval | nd4j-backends/nd4j-api-parent/nd4j-api/src/main/java/org/nd4j/linalg/lossfunctions/impl/LossFMeasure.java:18-21 | the documented range: with probabilities and a non-negative mask the score is a real in [0, 1] |
| LossFMeasure.ComputeGradient | nd4j-backends/nd4j-api-parent/nd4j-api/src/main/java/org/nd4j/linalg/lossfunctions/impl/LossFMeasure.java:123-157 | fails exactly for a bad width; a zero array for 0/0; non-finite for den = 0 with num != 0; otherwise a fresh array whose every entry is the negated, masked gradient entry |
| LossFMeasure.FillGradientColumn | nd4j-backends/nd4j-api-parent/nd4j-api/src/main/java/org/nd4j/linalg/lossfunctions/impl/LossFMeasure.java:136-144 | the gradient column receives label*(1+beta^2)/den - num/den^2, and the other column stays 0 |
| LossFMeasure.NegateAndMask | nd4j-backends/nd4j-api-parent/nd4j-api/src/main/java/org/nd4j/linalg/lossfunctions/impl/LossFMeasure.java:148-154 | every entry is negated and multiplied by its row's mask weight |
| LossFMeasure.NudgeRow | nd4j-backends/nd4j-api-parent/nd4j-api/src/main/java/org/nd4j/linalg/lossfunctions/impl/LossFMeasure.java:92-98 | moving a row's class-1 probability by h moves its class-0 probability by -h |
| LossFMeasure.Nudge | nd4j-backends/nd4j-api-parent/nd4j-api/src/main/java/org/nd4j/linalg/lossfunctions/impl/LossFMeasure.java:92-98 | nudging row i changes that row only |
| LossFMeasure.RowCountsNudge | nd4j-backends/nd4j-api-parent/nd4j-api/src/main/java/org/nd4j/linalg/lossfunctions/impl/LossFMeasure.java:106-108 | a nudged row's counts are its old counts plus a shift linear in h |
| LossFMeasure.TallyNudge | nd4j-backends/nd4j-api-parent/nd4j-api/src/main/java/org/nd4j/linalg/lossfunctions/impl/LossFMeasure.java:106-108 | nudging row i shifts the tally of every prefix containing row i by that row's shift |
| LossFMeasure.FractionShift | nd4j-backends/nd4j-api-parent/nd4j-api/src/main/java/org/nd4j/linalg/lossfunctions/impl/LossFMeasure.java:110-111 | for a dichotomous row the shift moves num by h*rate and den by h*weight |
| LossFMeasure.NudgeShiftsFraction | nd4j-backends/nd4j-api-parent/nd4j-api/src/main/java/org/nd4j/linalg/lossfunctions/impl/LossFMeasure.java:106-111 | nudging row i moves the whole minibatch's num and den by those amounts |
| LossFMeasure.CrossDifference | nd4j-backends/nd4j-api-parent/nd4j-api/src/main/java/org/nd4j/linalg/lossfunctions/impl/LossFMeasure.java:133 | a/b - c/d = (ad - cb)/(bd) |
| LossFMeasure.QuotientRuleDifference | nd4j-backends/nd4j-api-parent/nd4j-api/src/main/java/org/nd4j/linalg/lossfunctions/impl/LossFMeasure.java:133 | the difference quotient of 1 - num/den when num and den move linearly in h |
| LossFMeasure.GradientAlgebra | nd4j-backends/nd4j-api-parent/nd4j-api/src/main/java/org/nd4j/linalg/lossfunctions/impl/LossFMeasure.java:133-148 | the negated, masked filled value is the quotient-rule derivative of 1 - num/den |
| LossFMeasure.FractionSlope | nd4j-backends/nd4j-api-parent/nd4j-api/src/main/java/org/nd4j/linalg/lossfunctions/impl/LossFMeasure.java:133-148 | the slope facts for a fraction moved by (h*a, h*w) |
| LossFMeasure.GradientIsScoreSlope | nd4j-backends/nd4j-api-parent/nd4j-api/src/main/java/org/nd4j/linalg/lossfunctions/impl/LossFMeasure.java:128-154 | with dichotomous labels, each entry of the gradient column at row i equals the quotient-rule derivative of the score with respect to row i's class-1 probability, and the exact difference quotient of the score for a nudge h is that derivative with den^2 replaced by den times the nudged den |

## Left out

- Native execution: the executioner, the native `Im2col`/`Col2Im`/`Pooling2D` ops, and `conv2d`/`convn`/`pooling2D`. im2col and col2im are specified by their tests rather than by native code.
- The 10-argument `col2im` is modelled twice: as written, and as its callers and tests expect.
- ConvolutionLayout.Col2imChecked and ConvolutionLayout.Col2imFromArrays: like the 10-argument form, the 7-argument `col2im` (Convolution.java:82-96) builds its `Col2Im` op without `col` and returns the op's first output argument. The model stops at the scalar request; what the native op then produces is not modelled, so neither member says that `col` reaches the op.
- ConvolutionLayout.Im2colFromArrays and ConvolutionLayout.Col2imFromArrays: a null `kernel`, `stride` or `padding` array makes Java throw NullPointerException (Convolution.java:64-66, 127-130). Sequences are never null here, so that path is not modelled; only arrays that are too short fail.
- ConvolutionLayout.OutSize, ConvolutionLayout.EffectiveKernelSize, ConvolutionLayout.SamePadding, ConvolutionLayout.AxisOf and ConvolutionLayout.GeometryOf: Java computes `size + 2*p - kEff`, `k + (k-1)*(d-1)` and `(out-1)*s + kEff - in` in 32-bit `int`, which wraps past 2^31 - 1. The model uses unbounded integers, so it does not capture that wrap-around.
- ConvolutionLayout.GeometryOf: a negative kernel size or dilation, a stride below 1 or a negative output size gives None. What the native op does with such a request is not modelled.
- ConvolutionInto.Col2imInto: requires non-negative strides, dilations and image size, and a `z` of shape [b, c, h, w] (the batch and channel axes of `col`, and the request's image size) whose length is the product of that shape. The Java method accepts any rank-4 `z`. What the native op does with negative values or with a `z` of another shape is not modelled.
- ConvolutionInto.Im2colIntoView: takes the im2col geometry rather than the request. GeometryOf computes a request's geometry, and the `...GeometryOfRequest` lemmas show that the geometry each test passes is the one its im2col arguments describe.
- `testimcolim`, `testCol2Im` and the comparison tests rely on `OldConvolution`, which is not part of this model.
- Transforms.ApplyTransform, NDArrays.NDArray.Dup, Transforms.ApplyOneArgument, Transforms.Compare, Transforms.PairwiseExtremum, Transforms.Logical, Transforms.Not and Transforms.Reverse: the contents of a released array are taken to stay readable. The only check on a released array is `isCleanedUp()` on the exec routes (Transforms.java:1014-1030). Everywhere else, `dup()` copies a released array's elements into a live array, and kernels with no guard (sin, relu, softPlus, and/or/xor/not, reverse, and the `dup` routes of eps, floor, scalarMax and scalarMin) run on the released contents and succeed. What the native code does with released storage (a use-after-free) is not modelled.
- Floating point: doubles, floats and halves are exact reals.
  - NaN and infinity appear only as the `NonFinite` outcome of a division by zero.
  - Float rounding, `Math.round` and the floating square count of `mpow` are not modelled. `MPow` takes any count `squares` with `2^squares <= |n|` in place of `(int)(log(n)/log(2))`.
- MatrixPower.MPow: the matrix product is an abstract associative operation. The identity and the inverse (`InvertMatrix.invert`, which is not part of this model) are parameters. The model neither checks squareness nor models the Java `assert`, and `-n` is unbounded, so `n = Integer.MIN_VALUE` does not overflow.
- Numeric kernels are function parameters: acos, acosh, tanh, sinh, cosh, sqrt, complex acos and division, and every elementwise transform kernel (sin, sigmoid, max, ...).
- The distance, similarity and normalisation helpers of `Transforms` (`cosineSim`, `unitVec`, `normalizeZeroMeanAndUnitVariance`, `atan2`, ...) are numeric kernels and not modelled.
- Global state is passed as parameters: `Nd4j.copyOnOps` and `Nd4j.dataType()`.
- `zeroHalf()` is inherited from a base class that is not part of this model, so it is a parameter.
- `BaseOp`, the common superclass, is not part of this model. Its `init` is taken to store x, y, z and n, and its constructors are taken to call the class's `init` (which is how Reverse's override marks the op as a pass-through).
- Graph bookkeeping is not modelled: `validateDifferentialFunctionsameDiff`, `addEdges`, the `f()` factory and SameDiff.
- doDiff results are expression trees, and `Eval` reads `repeat` as broadcasting its value.
- Op classes and overloads inherited from classes that are not part of this model are reported as absent (`None`): TanhDerivative's element overloads, and Sum's real overloads.
- OpInstances.OpInstance.ExecTanhDerivative: the Tanh op of the source may write tanh into x in place. The model computes tanh into a temporary and leaves x as it was.
- LossFMeasure: the activation function is the identity.
  - `getActivation` and `backprop` are not modelled.
  - `computeGradientAndScore` only pairs `computeScore` with `computeGradient`, and is not modelled separately.
  - `name()`, `toString()`, the unused `average` flag and Java's exact decimal rendering of beta (a parameter `render`) are left out.
- `toString` and other printing in the op classes, and the TensorFlow import, FlatBuffers and meta-op files.
- LossFMeasure.GradientIsScoreSlope: it is stated for dichotomous labels (positive + negative = 1 per row). Beyond that, only the quotient-rule form of the derivative is proved, not a limit.
- IndexAccumulation.FromFunctions and IndexAccumulation.SecondNodeUnchecked: the two-node constructor's own null check covers only the first node. It then passes the second node to `validateDifferentialFunctionsameDiff` and `addEdges` (BaseIndexAccumulation.java:39-41), which are graph bookkeeping and not part of this model. What that validation does with a null second node is not modelled, so neither member says whether nd4j as a whole rejects it.
- LossFMeasure.Not: `Transforms.not` is given a fixed kernel here, 1 for a zero label and 0 otherwise, taken as the meaning of `not` on a label. Transforms.Not keeps the kernel as a parameter, like every other elementwise transform. The native kernel itself is not part of this model.
- IndexAccumulation.CombineAssociative and IndexAccumulation.CombineKeepsBest are stated for pairs with distinct indices. With equal indices the source's choice depends on `update` returning an index equal to both.

## Findings

| source | as written | input that shows it | evidently intended | confidence | as-written member | corrected member |
|---|---|---|---|---|---|---|
| nd4j-backends/nd4j-api-parent/nd4j-api/src/main/java/org/nd4j/linalg/convolution/Convolution.java:99-116 | `col2im(col, z, ...)` builds the native op without `col` or `z` as arguments and returns `z` | the stride-2 "same" test's patch tensor into a zero-filled `z`: z[0,0,1,0] stays 0 where the test expects 8 | `z` receives the col2im sums of `col` | not executed | ConvolutionTests.Col2imIntoAsWrittenKeepsZeros | ConvolutionInto.Col2imInto |
| nd4j-backends/nd4j-api-parent/nd4j-api/src/main/java/org/nd4j/linalg/api/ops/impl/scalar/ScalarDivision.java:147-152 | `doDiff` yields grad * scalar / arg^2 | arg 1, scalar 2, gradient 1: the node gives 2, while x / 2 has slope 1/2 | grad / scalar, the derivative of x / scalar | not executed | OpTaxonomy.ScalarDivisionGradAsWrittenCounterexample | OpTaxonomy.ScalarDivisionGradIsChainRule |
| nd4j-backends/nd4j-api-parent/nd4j-api/src/main/java/org/nd4j/linalg/api/ops/impl/transforms/ACos.java:145-151 | `doDiff` yields 1 / sqrt(1 - arg^2) | arg 0: the node gives +1 while acos falls on both sides of 0 | -1 / sqrt(1 - arg^2), the derivative of acos | not executed | OpTaxonomy.ACosGradAsWrittenCounterexample | OpTaxonomy.ACosGradSign |
