/**
 * The quantized reference convolution of the convolution benchmark:
 * a filter bank slid over an NHWC uint8 image with SAME or VALID padding,
 * products of offset-corrected samples summed in a 32-bit accumulator,
 * rescaled with round-half-up and stored as raw uint8 (modulo 256).
 *
 * The pure functions below are the specification; `ReferenceConv` is the
 * six-deep loop nest of the source, proved to fill the output buffer with
 * `ConvResult`.
 */
module Conv {
  import opened FixedPoint
  import Layout

  /** The source's `enum Padding`: VALID = 1, SAME = 2. Anything but VALID takes the SAME branch. */
  datatype Padding = Valid | Same

  /** The scalar arguments of ReferenceConv, in the source's order. */
  datatype ConvParams = ConvParams(
    inputBatches: nat, inputHeight: nat, inputWidth: nat, inputDepth: nat, inputOffset: int,
    filterHeight: nat, filterWidth: nat, filterCount: nat, filterOffset: int,
    stride: int, padding: Padding,
    outputHeight: nat, outputWidth: nat,
    outputShift: int, outputOffset: int, outputMult: int)

  /** One output value: image `batch`, pixel (y, x), output channel `channel`. */
  datatype Cell = Cell(batch: nat, y: nat, x: nat, channel: nat)

  function InputSize(p: ConvParams): nat {
    p.inputBatches * p.inputHeight * p.inputWidth * p.inputDepth
  }

  function FilterSize(p: ConvParams): nat {
    p.filterHeight * p.filterWidth * p.inputDepth * p.filterCount
  }

  function OutputSize(p: ConvParams): nat {
    p.inputBatches * p.outputHeight * p.outputWidth * p.filterCount
  }

  /**
   * What the kernel trusts its caller for: buffers at least as large as the
   * shapes say, and a shift for which `1 << (shift - 1)` and `>> shift` are
   * defined on int32_t.
   */
  predicate Fits(p: ConvParams, inputLength: int, filterLength: int) {
    0 <= p.outputShift < 32 && InputSize(p) <= inputLength && FilterSize(p) <= filterLength
  }

  predicate InOutput(p: ConvParams, c: Cell) {
    c.batch < p.inputBatches && c.y < p.outputHeight && c.x < p.outputWidth && c.channel < p.filterCount
  }

  /** Flat NHWC position of an output cell. */
  function OutIndex(p: ConvParams, c: Cell): int {
    Layout.Offset4(c.batch, c.y, c.x, c.channel, p.outputHeight, p.outputWidth, p.filterCount)
  }

  /**
   * Origin offset of the filter window along one axis:
   * `((out - 1) * stride + filter - in + 1) / 2` for VALID and the same
   * without the `+ 1` for SAME, with C's truncating division.
   */
  function OriginOffset(padding: Padding, outDim: int, stride: int, filterDim: int, inDim: int): int {
    var excess := (outDim - 1) * stride + filterDim - inDim;
    if padding == Valid then TruncDiv(excess + 1, 2) else TruncDiv(excess, 2)
  }

  function LeftOffset(p: ConvParams): int {
    OriginOffset(p.padding, p.outputWidth, p.stride, p.filterWidth, p.inputWidth)
  }

  function TopOffset(p: ConvParams): int {
    OriginOffset(p.padding, p.outputHeight, p.stride, p.filterHeight, p.inputHeight)
  }

  /** Input coordinates read by filter tap (fy, fx) of output pixel (y, x). */
  function InY(p: ConvParams, c: Cell, fy: int): int {
    c.y * p.stride - TopOffset(p) + fy
  }

  function InX(p: ConvParams, c: Cell, fx: int): int {
    c.x * p.stride - LeftOffset(p) + fx
  }

  /** `input - input_offset` at an in-bounds position, and 0 for a position outside the image. */
  function InputValue(p: ConvParams, input: seq<byte>, batch: nat, inY: int, inX: int, ch: nat): int
    requires InputSize(p) <= |input| && batch < p.inputBatches && ch < p.inputDepth
  {
    if 0 <= inX < p.inputWidth && 0 <= inY < p.inputHeight then
      Layout.Offset4Below(batch, inY, inX, ch, p.inputBatches, p.inputHeight, p.inputWidth, p.inputDepth);
      input[Layout.Offset4(batch, inY, inX, ch, p.inputHeight, p.inputWidth, p.inputDepth)] - p.inputOffset
    else
      0
  }

  /** `filter - filter_offset`, filter laid out [fy][fx][in_channel][out_channel]. */
  function FilterValue(p: ConvParams, filter: seq<byte>, fy: nat, fx: nat, ic: nat, oc: nat): int
    requires FilterSize(p) <= |filter|
    requires fy < p.filterHeight && fx < p.filterWidth && ic < p.inputDepth && oc < p.filterCount
  {
    Layout.Offset4Below(fy, fx, ic, oc, p.filterHeight, p.filterWidth, p.inputDepth, p.filterCount);
    filter[Layout.Offset4(fy, fx, ic, oc, p.filterWidth, p.inputDepth, p.filterCount)] - p.filterOffset
  }

  /** The product one filter tap adds to the accumulator of cell c. */
  function Tap(p: ConvParams, input: seq<byte>, filter: seq<byte>, c: Cell, fy: nat, fx: nat, ic: nat): int
    requires Fits(p, |input|, |filter|) && InOutput(p, c)
    requires fy < p.filterHeight && fx < p.filterWidth && ic < p.inputDepth
  {
    InputValue(p, input, c.batch, InY(p, c, fy), InX(p, c, fx), ic) * FilterValue(p, filter, fy, fx, ic, c.channel)
  }

  /** Sum of the taps at (fy, fx) over input channels 0 .. n-1. */
  function ChannelSum(p: ConvParams, input: seq<byte>, filter: seq<byte>, c: Cell, fy: nat, fx: nat, n: nat): int
    requires Fits(p, |input|, |filter|) && InOutput(p, c)
    requires fy < p.filterHeight && fx < p.filterWidth && n <= p.inputDepth
  {
    if n == 0 then 0 else ChannelSum(p, input, filter, c, fy, fx, n - 1) + Tap(p, input, filter, c, fy, fx, n - 1)
  }

  /** Sum over filter columns 0 .. n-1 of filter row fy, all channels. */
  function RowSum(p: ConvParams, input: seq<byte>, filter: seq<byte>, c: Cell, fy: nat, n: nat): int
    requires Fits(p, |input|, |filter|) && InOutput(p, c)
    requires fy < p.filterHeight && n <= p.filterWidth
  {
    if n == 0 then 0
    else RowSum(p, input, filter, c, fy, n - 1) + ChannelSum(p, input, filter, c, fy, n - 1, p.inputDepth)
  }

  /** Sum over filter rows 0 .. n-1. */
  function WindowSum(p: ConvParams, input: seq<byte>, filter: seq<byte>, c: Cell, n: nat): int
    requires Fits(p, |input|, |filter|) && InOutput(p, c)
    requires n <= p.filterHeight
  {
    if n == 0 then 0
    else WindowSum(p, input, filter, c, n - 1) + RowSum(p, input, filter, c, n - 1, p.filterWidth)
  }

  /** The accumulator `total` of cell c once all taps are added. */
  function Total(p: ConvParams, input: seq<byte>, filter: seq<byte>, c: Cell): int
    requires Fits(p, |input|, |filter|) && InOutput(p, c)
  {
    WindowSum(p, input, filter, c, p.filterHeight)
  }

  /** The byte stored for cell c: rescaled, then truncated to 8 bits (there is no clamp). */
  function CellValue(p: ConvParams, input: seq<byte>, filter: seq<byte>, c: Cell): byte
    requires Fits(p, |input|, |filter|) && InOutput(p, c)
  {
    WrapToByte(Rescale(Total(p, input, filter, c), p.outputOffset, p.outputMult, p.outputShift))
  }

  function DecodeCell(p: ConvParams, k: int): Cell
    requires 0 <= k < OutputSize(p)
  {
    var t := Layout.Decode4(k, p.outputHeight, p.outputWidth, p.filterCount);
    Layout.Decode4Inverse(k, p.inputBatches, p.outputHeight, p.outputWidth, p.filterCount);
    Cell(t.0, t.1, t.2, t.3)
  }

  /** The whole output buffer the kernel produces, position by position. */
  function ConvResult(p: ConvParams, input: seq<byte>, filter: seq<byte>): (r: seq<byte>)
    requires Fits(p, |input|, |filter|)
    ensures |r| == OutputSize(p)
  {
    seq(OutputSize(p), k requires 0 <= k < OutputSize(p) =>
      Layout.Decode4Inverse(k, p.inputBatches, p.outputHeight, p.outputWidth, p.filterCount);
      CellValue(p, input, filter, DecodeCell(p, k)))
  }

  /**
   * The C code computes in int32_t: every value it forms must be in range.
   * These are the sample and weight differences, each product, every prefix
   * of the accumulation in loop order, and each step of the rescale.
   */
  ghost predicate Int32Safe(p: ConvParams, input: seq<byte>, filter: seq<byte>)
    requires Fits(p, |input|, |filter|)
  {
    && (forall c: Cell, fy: nat, fx: nat, ic: nat |
          InOutput(p, c) && fy < p.filterHeight && fx < p.filterWidth && ic < p.inputDepth ::
          && IsInt32(InputValue(p, input, c.batch, InY(p, c, fy), InX(p, c, fx), ic))
          && IsInt32(FilterValue(p, filter, fy, fx, ic, c.channel))
          && IsInt32(Tap(p, input, filter, c, fy, fx, ic))
          && IsInt32(WindowSum(p, input, filter, c, fy) + RowSum(p, input, filter, c, fy, fx)
                     + ChannelSum(p, input, filter, c, fy, fx, ic + 1)))
    && (forall c: Cell | InOutput(p, c) ::
          && IsInt32(Total(p, input, filter, c) + p.outputOffset)
          && IsInt32((Total(p, input, filter, c) + p.outputOffset) * p.outputMult)
          && IsInt32((Total(p, input, filter, c) + p.outputOffset) * p.outputMult + RoundingTerm(p.outputShift)))
  }

  // ---------------------------------------------------------------------
  // Properties of the specification

  /** Cell c's value sits at its NHWC position `((b * H + y) * W + x) * C + channel`. */
  lemma ConvResultAt(p: ConvParams, input: seq<byte>, filter: seq<byte>, c: Cell)
    requires Fits(p, |input|, |filter|) && InOutput(p, c)
    ensures OutIndex(p, c) == ((c.batch * p.outputHeight + c.y) * p.outputWidth + c.x) * p.filterCount + c.channel
    ensures 0 <= OutIndex(p, c) < |ConvResult(p, input, filter)|
    ensures ConvResult(p, input, filter)[OutIndex(p, c)] == CellValue(p, input, filter, c)
  {
    Layout.Offset4Nested(c.batch, c.y, c.x, c.channel, p.outputHeight, p.outputWidth, p.filterCount);
    Layout.Offset4Below(c.batch, c.y, c.x, c.channel, p.inputBatches, p.outputHeight, p.outputWidth, p.filterCount);
    Layout.Decode4OfOffset4(c.batch, c.y, c.x, c.channel, p.outputHeight, p.outputWidth, p.filterCount);
  }

  /** No two output cells share a position: each cell of the buffer is written for one cell only. */
  lemma OutIndexInjective(p: ConvParams, c: Cell, d: Cell)
    requires InOutput(p, c) && InOutput(p, d) && c != d
    ensures OutIndex(p, c) != OutIndex(p, d)
  {
    if OutIndex(p, c) == OutIndex(p, d) {
      Layout.Offset4Injective(c.batch, c.y, c.x, c.channel, d.batch, d.y, d.x, d.channel,
                              p.outputHeight, p.outputWidth, p.filterCount);
    }
  }

  /** The VALID origin is the SAME origin or one further in. */
  lemma ValidOriginOneBeyondSame(outDim: int, stride: int, filterDim: int, inDim: int)
    ensures var v, s := OriginOffset(Valid, outDim, stride, filterDim, inDim), OriginOffset(Same, outDim, stride, filterDim, inDim);
      v == s || v == s + 1
  {
  }

  /**
   * SAME with stride 1 and an output as large as the input centres the
   * window: it starts (filter - 1) / 2 samples before the output position.
   */
  lemma SameStride1Centres(outDim: nat, filterDim: nat)
    requires filterDim >= 1
    ensures OriginOffset(Same, outDim, 1, filterDim, outDim) == (filterDim - 1) / 2
  {
  }

  /**
   * VALID never reads outside the input along an axis when all windows
   * fit, i.e. `(out - 1) * stride + filter <= in`, and the stride is not
   * negative.
   */
  lemma {:induction false} ValidReadsInside(outDim: int, stride: int, filterDim: int, inDim: int, out: int, f: int)
    requires stride >= 0 && (outDim - 1) * stride + filterDim <= inDim
    requires 0 <= out < outDim && 0 <= f < filterDim
    ensures 0 <= out * stride - OriginOffset(Valid, outDim, stride, filterDim, inDim) + f < inDim
  {
    var off := OriginOffset(Valid, outDim, stride, filterDim, inDim);
    var excess := (outDim - 1) * stride + filterDim - inDim;
    assert excess <= off <= 0;
    Layout.MulNonneg(out, stride);
    Layout.MulNonneg(outDim - 1 - out, stride);
    assert (outDim - 1 - out) * stride == (outDim - 1) * stride - out * stride;
  }

  /**
   * A VALID window whose excess is positive starts before the image: the
   * first output's first tap is at a negative coordinate and reads as 0.
   */
  lemma ValidOversizedOutputStartsOutside(outDim: int, stride: int, filterDim: int, inDim: int)
    requires (outDim - 1) * stride + filterDim - inDim >= 1
    ensures 0 * stride - OriginOffset(Valid, outDim, stride, filterDim, inDim) + 0 < 0
  {
  }

  /** A tap outside the image contributes exactly 0, whatever the offsets are. */
  lemma OutsideTapIsZero(p: ConvParams, input: seq<byte>, filter: seq<byte>, c: Cell, fy: nat, fx: nat, ic: nat)
    requires Fits(p, |input|, |filter|) && InOutput(p, c)
    requires fy < p.filterHeight && fx < p.filterWidth && ic < p.inputDepth
    requires !(0 <= InY(p, c, fy) < p.inputHeight && 0 <= InX(p, c, fx) < p.inputWidth)
    ensures Tap(p, input, filter, c, fy, fx, ic) == 0
  {
  }

  // ---------------------------------------------------------------------
  // The known answer of the small benchmark

  const SmallParams := ConvParams(1, 3, 4, 1, 0, 3, 3, 1, 0, 1, Same, 3, 4, 0, 0, 1)
  const SmallImage: seq<byte> := [1, 2, 3, 4, 5, 6, 7, 8, 9, 10, 11, 12]
  const SmallFilter: seq<byte> := [1, 4, 7, 2, 5, 8, 3, 6, 9]

  /**
   * The small benchmark described by formulas: the image holds 1 .. 12 in
   * row-major order and the filter holds 1 .. 9 transposed, so that
   * filter[fy][fx] == 3 * fx + fy + 1.
   */
  ghost predicate IsSmall(p: ConvParams, image: seq<byte>, filter: seq<byte>) {
    && p == ConvParams(1, 3, 4, 1, 0, 3, 3, 1, 0, 1, Same, 3, 4, 0, 0, 1) && |image| == 12 && |filter| == 9
    && (forall k | 0 <= k < 12 :: image[k] == k + 1)
    && (forall fy, fx | 0 <= fy < 3 && 0 <= fx < 3 :: filter[fy * 3 + fx] == 3 * fx + fy + 1)
  }

  lemma SmallConstantsAreSmall()
    ensures IsSmall(SmallParams, SmallImage, SmallFilter)
  {
    forall fy, fx | 0 <= fy < 3 && 0 <= fx < 3
      ensures SmallFilter[fy * 3 + fx] == 3 * fx + fy + 1
    {
      if fy == 0 {} else if fy == 1 {} else {}
    }
  }

  /** A pixel of the small benchmark's single-image, single-channel output. */
  predicate SmallPixel(c: Cell) {
    c.batch == 0 && c.channel == 0 && c.y < 3 && c.x < 4
  }

  /** The small benchmark's sample at (iy, ix): 4 * iy + ix + 1 inside the 3x4 image, 0 outside it. */
  function SmallPixelAt(iy: int, ix: int): int {
    if 0 <= iy < 3 && 0 <= ix < 4 then iy * 4 + ix + 1 else 0
  }

  /** The small benchmark's weight filter[fy][fx]. */
  function SmallWeightAt(fy: int, fx: int): int {
    3 * fx + fy + 1
  }

  /** image[y - 1 + fy][x - 1 + fx] * filter[fy][fx] in the small benchmark, 0 outside the image. */
  function SmallTapValue(y: int, x: int, fy: int, fx: int): int {
    SmallPixelAt(y - 1 + fy, x - 1 + fx) * SmallWeightAt(fy, fx)
  }

  /** Taps 0 .. n-1 of filter row fy for pixel (y, x) of the small benchmark, added up. */
  function SmallRowSum(y: int, x: int, fy: int, n: nat): int {
    if n == 0 then 0 else SmallRowSum(y, x, fy, n - 1) + SmallTapValue(y, x, fy, n - 1)
  }

  /** Filter rows 0 .. n-1 for pixel (y, x) of the small benchmark, added up. */
  function SmallWindowSum(y: int, x: int, n: nat): int {
    if n == 0 then 0 else SmallWindowSum(y, x, n - 1) + SmallRowSum(y, x, n - 1, 3)
  }

  /** The small benchmark reads image[iy][ix] == 4 * iy + ix + 1 inside the image and 0 outside it. */
  lemma SmallInput(p: ConvParams, image: seq<byte>, filter: seq<byte>, iy: int, ix: int)
    requires IsSmall(p, image, filter)
    ensures InputValue(p, image, 0, iy, ix, 0) == SmallPixelAt(iy, ix)
  {
    if 0 <= iy < 3 && 0 <= ix < 4 {
      assert Layout.Offset4(0, iy, ix, 0, p.inputHeight, p.inputWidth, p.inputDepth) == iy * 4 + ix;
    }
  }

  /** The small benchmark's weight filter[fy][fx] is 3 * fx + fy + 1. */
  lemma SmallWeight(p: ConvParams, image: seq<byte>, filter: seq<byte>, fy: nat, fx: nat)
    requires IsSmall(p, image, filter) && fy < 3 && fx < 3
    ensures FilterValue(p, filter, fy, fx, 0, 0) == SmallWeightAt(fy, fx)
  {
    assert Layout.Offset4(fy, fx, 0, 0, p.filterWidth, p.inputDepth, p.filterCount) == fy * 3 + fx;
  }

  /** A tap is the product of the sample and weight differences it reads. */
  lemma TapProduct(p: ConvParams, input: seq<byte>, filter: seq<byte>, c: Cell, fy: nat, fx: nat, ic: nat, a: int, b: int)
    requires Fits(p, |input|, |filter|) && InOutput(p, c)
    requires fy < p.filterHeight && fx < p.filterWidth && ic < p.inputDepth
    requires InputValue(p, input, c.batch, InY(p, c, fy), InX(p, c, fx), ic) == a
    requires FilterValue(p, filter, fy, fx, ic, c.channel) == b
    ensures ChannelSum(p, input, filter, c, fy, fx, ic + 1) == ChannelSum(p, input, filter, c, fy, fx, ic) + a * b
  {
  }

  /** SAME padding of a 3x3 filter at stride 1 centres the window: tap (fy, fx) of pixel (y, x) reads (y - 1 + fy, x - 1 + fx). */
  lemma SmallOrigin(p: ConvParams, image: seq<byte>, filter: seq<byte>, c: Cell, fy: int, fx: int)
    requires IsSmall(p, image, filter)
    ensures InY(p, c, fy) == c.y - 1 + fy && InX(p, c, fx) == c.x - 1 + fx
  {
    assert TopOffset(p) == 1 && LeftOffset(p) == 1;
  }

  /** In the small benchmark, tap (fy, fx) of pixel (y, x) multiplies image[y - 1 + fy][x - 1 + fx] by filter[fy][fx]. */
  lemma SmallTap(p: ConvParams, image: seq<byte>, filter: seq<byte>, c: Cell, fy: nat, fx: nat)
    requires IsSmall(p, image, filter) && SmallPixel(c)
    requires fy < 3 && fx < 3
    ensures ChannelSum(p, image, filter, c, fy, fx, 1) == SmallTapValue(c.y, c.x, fy, fx)
  {
    SmallOrigin(p, image, filter, c, fy, fx);
    var iy, ix := c.y - 1 + fy, c.x - 1 + fx;
    SmallInput(p, image, filter, iy, ix);
    SmallWeight(p, image, filter, fy, fx);
    TapProduct(p, image, filter, c, fy, fx, 0, SmallPixelAt(iy, ix), SmallWeightAt(fy, fx));
  }

  /** The raw accumulator of each pixel of the small benchmark, in row-major order. */
  const SmallTotals: seq<int> := [105, 150, 183, 95, 235, 312, 357, 178, 187, 234, 261, 121]

  /** The three taps of filter row fy of pixel (y, x), written out. */
  lemma SmallRowUnfold(y: int, x: int, fy: int)
    ensures SmallRowSum(y, x, fy, 3) == SmallTapValue(y, x, fy, 0) + SmallTapValue(y, x, fy, 1) + SmallTapValue(y, x, fy, 2)
  {
    assert SmallRowSum(y, x, fy, 1) == SmallTapValue(y, x, fy, 0);
    assert SmallRowSum(y, x, fy, 2) == SmallTapValue(y, x, fy, 0) + SmallTapValue(y, x, fy, 1);
  }

  /** The nine taps of pixel (y, x) of the small benchmark, added up without recursion. */
  function SmallNineTaps(y: int, x: int): int {
    SmallTapValue(y, x, 0, 0) + SmallTapValue(y, x, 0, 1) + SmallTapValue(y, x, 0, 2)
    + SmallTapValue(y, x, 1, 0) + SmallTapValue(y, x, 1, 1) + SmallTapValue(y, x, 1, 2)
    + SmallTapValue(y, x, 2, 0) + SmallTapValue(y, x, 2, 1) + SmallTapValue(y, x, 2, 2)
  }

  lemma SmallWindowUnfold(y: int, x: int)
    ensures SmallWindowSum(y, x, 3) == SmallNineTaps(y, x)
  {
    assert SmallWindowSum(y, x, 1) == SmallRowSum(y, x, 0, 3);
    assert SmallWindowSum(y, x, 2) == SmallRowSum(y, x, 0, 3) + SmallRowSum(y, x, 1, 3);
    SmallRowUnfold(y, x, 0);
    SmallRowUnfold(y, x, 1);
    SmallRowUnfold(y, x, 2);
  }

  /** The twelve raw accumulators of the small benchmark, worked out. */
  lemma SmallTotalsValues()
    ensures SmallNineTaps(0, 0) == 105 && SmallNineTaps(0, 1) == 150 && SmallNineTaps(0, 2) == 183 && SmallNineTaps(0, 3) == 95
    ensures SmallNineTaps(1, 0) == 235 && SmallNineTaps(1, 1) == 312 && SmallNineTaps(1, 2) == 357 && SmallNineTaps(1, 3) == 178
    ensures SmallNineTaps(2, 0) == 187 && SmallNineTaps(2, 1) == 234 && SmallNineTaps(2, 2) == 261 && SmallNineTaps(2, 3) == 121
  {
  }

  /** The raw accumulator of pixel (y, x) is entry 4 * y + x of SmallTotals. */
  lemma SmallTotalsTable(y: int, x: int)
    requires 0 <= y < 3 && 0 <= x < 4
    ensures SmallNineTaps(y, x) == SmallTotals[4 * y + x]
  {
    SmallTotalsValues();
    if y == 0 {
      if x == 0 {} else if x == 1 {} else if x == 2 {} else {}
    } else if y == 1 {
      if x == 0 {} else if x == 1 {} else if x == 2 {} else {}
    } else {
      if x == 0 {} else if x == 1 {} else if x == 2 {} else {}
    }
  }

  /** Filter row fy of a small-benchmark pixel: the row sum agrees with the direct one, tap by tap. */
  lemma {:induction false} SmallRow(p: ConvParams, image: seq<byte>, filter: seq<byte>, c: Cell, fy: nat, n: nat)
    requires IsSmall(p, image, filter) && SmallPixel(c) && fy < 3 && n <= 3
    ensures RowSum(p, image, filter, c, fy, n) == SmallRowSum(c.y, c.x, fy, n)
  {
    if n > 0 {
      SmallRow(p, image, filter, c, fy, n - 1);
      SmallTap(p, image, filter, c, fy, n - 1);
    }
  }

  /** Each pixel's accumulator is the direct nine-tap sum over image and filter. */
  lemma {:induction false} SmallWindow(p: ConvParams, image: seq<byte>, filter: seq<byte>, c: Cell, n: nat)
    requires IsSmall(p, image, filter) && SmallPixel(c) && n <= 3
    ensures WindowSum(p, image, filter, c, n) == SmallWindowSum(c.y, c.x, n)
  {
    if n > 0 {
      SmallWindow(p, image, filter, c, n - 1);
      SmallRow(p, image, filter, c, n - 1, 3);
    }
  }

  /**
   * Pixel (y, x) of the small benchmark whose nine-tap sum is t: with no
   * offset, multiplier 1 and shift 0 the stored byte is t modulo 256.
   */
  lemma SmallPixelResult(p: ConvParams, image: seq<byte>, filter: seq<byte>, y: nat, x: nat, t: int)
    requires IsSmall(p, image, filter) && y < 3 && x < 4
    requires SmallWindowSum(y, x, 3) == t
    ensures |ConvResult(p, image, filter)| == 12
    ensures ConvResult(p, image, filter)[4 * y + x] == t % 256
  {
    var c := Cell(0, y, x, 0);
    ConvResultAt(p, image, filter, c);
    assert OutIndex(p, c) == 4 * y + x;
    SmallWindow(p, image, filter, c, 3);
    assert Total(p, image, filter, c) == t;
    RescaleRoundsHalfUp(t, 0, 1, 0);
    assert Rescale(t, p.outputOffset, p.outputMult, p.outputShift) == t;
  }

  /** The bytes the uint8_t expected array of the test holds: its literals, truncated to 8 bits. */
  const SmallExpected: seq<byte> := [105, 150, 183, 95, 235, 56, 101, 178, 187, 234, 5, 121]

  lemma SmallExpectedTruncates()
    ensures forall k | 0 <= k < 12 :: SmallTotals[k] % 256 == SmallExpected[k]
  {
  }

  /**
   * The whole output of the small benchmark. The raw totals are SmallTotals;
   * 312, 357 and 261 exceed 255, so the stored bytes are 56, 101 and 5, which
   * is what the test's uint8_t expected array holds once its literals are
   * truncated.
   */
  lemma SmallConvKnownAnswer(p: ConvParams, image: seq<byte>, filter: seq<byte>)
    requires IsSmall(p, image, filter)
    ensures ConvResult(p, image, filter) == SmallExpected
  {
    var r := ConvResult(p, image, filter);
    forall k | 0 <= k < 12
      ensures r[k] == SmallTotals[k] % 256
    {
      var y, x := k / 4, k % 4;
      assert k == 4 * y + x;
      SmallWindowUnfold(y, x);
      SmallTotalsTable(y, x);
      SmallPixelResult(p, image, filter, y, x, SmallTotals[k]);
    }
    SmallExpectedTruncates();
    assert |r| == 12;
  }

  // ---------------------------------------------------------------------
  // The kernel

  /** The three inner loops: the accumulator of one output cell. */
  method CellTotal(input: array<byte>, filter: array<byte>, p: ConvParams, c: Cell,
                   filterLeftOffset: int, filterTopOffset: int) returns (total: int)
    requires Fits(p, input.Length, filter.Length) && InOutput(p, c)
    requires filterLeftOffset == LeftOffset(p) && filterTopOffset == TopOffset(p)
    ensures total == Total(p, input[..], filter[..], c)
  {
    var inXOrigin := c.x * p.stride - filterLeftOffset;
    var inYOrigin := c.y * p.stride - filterTopOffset;
    total := 0;
    var filterY := 0;
    while filterY < p.filterHeight
      invariant 0 <= filterY <= p.filterHeight
      invariant total == WindowSum(p, input[..], filter[..], c, filterY)
    {
      var filterX := 0;
      while filterX < p.filterWidth
        invariant 0 <= filterX <= p.filterWidth
        invariant total == WindowSum(p, input[..], filter[..], c, filterY)
                         + RowSum(p, input[..], filter[..], c, filterY, filterX)
      {
        var inChannel := 0;
        while inChannel < p.inputDepth
          invariant 0 <= inChannel <= p.inputDepth
          invariant total == WindowSum(p, input[..], filter[..], c, filterY)
                           + RowSum(p, input[..], filter[..], c, filterY, filterX)
                           + ChannelSum(p, input[..], filter[..], c, filterY, filterX, inChannel)
        {
          var inX := inXOrigin + filterX;
          var inY := inYOrigin + filterY;
          var inputValue;
          if 0 <= inX && inX < p.inputWidth && 0 <= inY && inY < p.inputHeight {
            Layout.Offset4Below(c.batch, inY, inX, inChannel, p.inputBatches, p.inputHeight, p.inputWidth, p.inputDepth);
            var inputSourceValue := input[c.batch * p.inputHeight * p.inputWidth * p.inputDepth
                                          + inY * p.inputWidth * p.inputDepth + inX * p.inputDepth + inChannel];
            inputValue := inputSourceValue - p.inputOffset;
          } else {
            inputValue := 0;
          }
          Layout.Offset4Below(filterY, filterX, inChannel, c.channel, p.filterHeight, p.filterWidth, p.inputDepth, p.filterCount);
          var filterSourceValue := filter[filterY * p.filterWidth * p.inputDepth * p.filterCount
                                          + filterX * p.inputDepth * p.filterCount + inChannel * p.filterCount + c.channel];
          var filterValue := filterSourceValue - p.filterOffset;
          assert inputValue * filterValue == Tap(p, input[..], filter[..], c, filterY, filterX, inChannel);
          total := total + inputValue * filterValue;
          inChannel := inChannel + 1;
        }
        filterX := filterX + 1;
      }
      filterY := filterY + 1;
    }
  }

  /** The model of `ReferenceConv`. */
  method ReferenceConv(input: array<byte>, filter: array<byte>, output: array<byte>, p: ConvParams)
    requires Fits(p, input.Length, filter.Length) && OutputSize(p) <= output.Length
    requires output != input && output != filter
    requires Int32Safe(p, input[..], filter[..])
    modifies output
    ensures output[..OutputSize(p)] == ConvResult(p, input[..], filter[..])
    ensures output[OutputSize(p)..] == old(output[OutputSize(p)..])
    ensures unchanged(input) && unchanged(filter)
  {
    var filterLeftOffset;
    var filterTopOffset;
    if p.padding == Valid {
      filterLeftOffset := TruncDiv((p.outputWidth - 1) * p.stride + p.filterWidth - p.inputWidth + 1, 2);
      filterTopOffset := TruncDiv((p.outputHeight - 1) * p.stride + p.filterHeight - p.inputHeight + 1, 2);
    } else {
      filterLeftOffset := TruncDiv((p.outputWidth - 1) * p.stride + p.filterWidth - p.inputWidth, 2);
      filterTopOffset := TruncDiv((p.outputHeight - 1) * p.stride + p.filterHeight - p.inputHeight, 2);
    }
    ghost var O := output[..];
    ghost var R := ConvResult(p, input[..], filter[..]);
    // `pos` is the flat index of the next cell the loops will store
    ghost var pos := 0;
    var batch := 0;
    while batch < p.inputBatches
      invariant 0 <= batch <= p.inputBatches
      invariant pos == OutIndex(p, Cell(batch, 0, 0, 0)) && 0 <= pos <= OutputSize(p)
      invariant forall k | 0 <= k < pos :: output[k] == R[k]
      invariant forall k | pos <= k < output.Length :: output[k] == O[k]
    {
      var outY := 0;
      while outY < p.outputHeight
        invariant 0 <= outY <= p.outputHeight
        invariant pos == OutIndex(p, Cell(batch, outY, 0, 0)) && 0 <= pos <= OutputSize(p)
        invariant forall k | 0 <= k < pos :: output[k] == R[k]
        invariant forall k | pos <= k < output.Length :: output[k] == O[k]
      {
        var outX := 0;
        while outX < p.outputWidth
          invariant 0 <= outX <= p.outputWidth
          invariant pos == OutIndex(p, Cell(batch, outY, outX, 0)) && 0 <= pos <= OutputSize(p)
          invariant forall k | 0 <= k < pos :: output[k] == R[k]
          invariant forall k | pos <= k < output.Length :: output[k] == O[k]
        {
          Layout.Offset4RowFits(batch, outY, outX, p.inputBatches, p.outputHeight, p.outputWidth, p.filterCount);
          ConvPixel(input, filter, output, p, filterLeftOffset, filterTopOffset, batch, outY, outX, R, O, pos);
          Layout.Offset4Carry(batch, outY, outX, p.outputHeight, p.outputWidth, p.filterCount);
          pos := pos + p.filterCount;
          outX := outX + 1;
        }
        Layout.Offset4Carry(batch, outY, outX, p.outputHeight, p.outputWidth, p.filterCount);
        outY := outY + 1;
      }
      Layout.Offset4Carry(batch, outY, 0, p.outputHeight, p.outputWidth, p.filterCount);
      batch := batch + 1;
    }
    assert pos == OutputSize(p);
    assert output[..OutputSize(p)] == R;
  }

  /**
   * The `out_channel` loop of ReferenceConv: computes and stores every
   * channel of one output pixel, whose first channel lives at `pos`.
   */
  method ConvPixel(input: array<byte>, filter: array<byte>, output: array<byte>, p: ConvParams,
                   filterLeftOffset: int, filterTopOffset: int, batch: nat, outY: nat, outX: nat,
                   ghost R: seq<byte>, ghost O: seq<byte>, ghost pos: int)
    requires Fits(p, input.Length, filter.Length) && OutputSize(p) <= output.Length && |O| == output.Length
    requires output != input && output != filter
    requires R == ConvResult(p, input[..], filter[..])
    requires filterLeftOffset == LeftOffset(p) && filterTopOffset == TopOffset(p)
    requires batch < p.inputBatches && outY < p.outputHeight && outX < p.outputWidth
    requires pos == OutIndex(p, Cell(batch, outY, outX, 0)) && 0 <= pos && pos + p.filterCount <= OutputSize(p)
    requires forall k | 0 <= k < pos :: output[k] == R[k]
    requires forall k | pos <= k < output.Length :: output[k] == O[k]
    modifies output
    ensures forall k | 0 <= k < pos + p.filterCount :: output[k] == R[k]
    ensures forall k | pos + p.filterCount <= k < output.Length :: output[k] == O[k]
  {
    var outChannel := 0;
    while outChannel < p.filterCount
      invariant 0 <= outChannel <= p.filterCount
      invariant forall k | 0 <= k < pos + outChannel :: output[k] == R[k]
      invariant forall k | pos + outChannel <= k < output.Length :: output[k] == O[k]
    {
      var cell := Cell(batch, outY, outX, outChannel);
      var total := CellTotal(input, filter, p, cell, filterLeftOffset, filterTopOffset);
      var outputValue := ShiftRight((total + p.outputOffset) * p.outputMult + RoundingTerm(p.outputShift), p.outputShift);
      var index := batch * p.outputHeight * p.outputWidth * p.filterCount
                   + outY * p.outputWidth * p.filterCount + outX * p.filterCount + outChannel;
      assert index == OutIndex(p, cell) == pos + outChannel;
      ConvResultAt(p, input[..], filter[..], cell);
      output[index] := WrapToByte(outputValue);
      outChannel := outChannel + 1;
    }
  }
}
