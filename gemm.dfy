/**
 * The quantized reference matrix multiply of the GEMM benchmark:
 * C = A * B over uint8 matrices whose zero points are ADDED to each
 * element, each operand independently addressed row- or column-major,
 * the int32 accumulator rescaled with round-half-up and saturated to
 * [0, 255].
 *
 * The pure functions are the specification; `ReferenceEightBitIntGemm`
 * is the source's j / i / l loop nest, proved to leave the output buffer
 * exactly as the sequence of stores the specification describes.
 */
module Gemm {
  import opened FixedPoint
  import Layout

  /** The scalar arguments of ReferenceEightBitIntGemm, in the source's order. */
  datatype GemmParams = GemmParams(
    transposeA: bool, transposeB: bool, transposeC: bool,
    m: nat, n: nat, k: nat,
    aOffset: int, lda: nat,
    bOffset: int, ldb: nat,
    cOffset: int, cMult: int, cShift: int, ldc: nat)

  /** (a_i_stride, a_l_stride) as chosen by transpose_a. */
  function AStrides(p: GemmParams): (nat, nat) {
    if p.transposeA then (1, p.lda) else (p.lda, 1)
  }

  /** (b_j_stride, b_l_stride) as chosen by transpose_b. */
  function BStrides(p: GemmParams): (nat, nat) {
    if p.transposeB then (p.ldb, 1) else (1, p.ldb)
  }

  /** (c_i_stride, c_j_stride) as chosen by transpose_c. */
  function CStrides(p: GemmParams): (nat, nat) {
    if p.transposeC then (1, p.ldc) else (p.ldc, 1)
  }

  /** Where element (i, l) of A is read: row-major with leading dimension lda, or column-major. */
  function AIndex(p: GemmParams, i: nat, l: nat): (r: nat)
    ensures r == if p.transposeA then i + l * p.lda else i * p.lda + l
  {
    var s := AStrides(p);
    i * s.0 + l * s.1
  }

  /** Where element (l, j) of B is read. */
  function BIndex(p: GemmParams, l: nat, j: nat): (r: nat)
    ensures r == if p.transposeB then j * p.ldb + l else l * p.ldb + j
  {
    var s := BStrides(p);
    j * s.0 + l * s.1
  }

  /** Where cell (i, j) of C is stored. */
  function CIndex(p: GemmParams, i: nat, j: nat): (r: nat)
    ensures r == if p.transposeC then i + j * p.ldc else i * p.ldc + j
  {
    var s := CStrides(p);
    i * s.0 + j * s.1
  }

  /**
   * What the kernel trusts its caller for: a shift for which the rounding
   * term and `>> c_shift` are defined on int32_t, and buffers that hold the
   * farthest element each stride pattern addresses.
   */
  predicate OperandsFit(p: GemmParams, aLength: int, bLength: int) {
    && 0 <= p.cShift < 32
    && (p.m == 0 || p.k == 0 || AIndex(p, p.m - 1, p.k - 1) < aLength)
    && (p.k == 0 || p.n == 0 || BIndex(p, p.k - 1, p.n - 1) < bLength)
  }

  predicate Fits(p: GemmParams, aLength: int, bLength: int, cLength: int) {
    && OperandsFit(p, aLength, bLength)
    && (p.m == 0 || p.n == 0 || CIndex(p, p.m - 1, p.n - 1) < cLength)
  }

  lemma MulMonotone(x: nat, y: nat, s: nat)
    requires x <= y
    ensures x * s <= y * s
  {
    Layout.MulNonneg(y - x, s);
  }

  /** Every in-range (i, l), (l, j) and (i, j) addresses inside its buffer. */
  lemma OperandIndicesInBounds(p: GemmParams, aLength: int, bLength: int, i: nat, j: nat, l: nat)
    requires OperandsFit(p, aLength, bLength)
    ensures i < p.m && l < p.k ==> AIndex(p, i, l) < aLength
    ensures l < p.k && j < p.n ==> BIndex(p, l, j) < bLength
  {
    var (ai, al) := AStrides(p);
    var (bj, bl) := BStrides(p);
    if i < p.m && l < p.k {
      MulMonotone(i, p.m - 1, ai);
      MulMonotone(l, p.k - 1, al);
    }
    if l < p.k && j < p.n {
      MulMonotone(j, p.n - 1, bj);
      MulMonotone(l, p.k - 1, bl);
    }
  }

  lemma CellIndexInBounds(p: GemmParams, aLength: int, bLength: int, cLength: int, i: nat, j: nat)
    requires Fits(p, aLength, bLength, cLength) && i < p.m && j < p.n
    ensures CIndex(p, i, j) < cLength
  {
    var (ci, cj) := CStrides(p);
    MulMonotone(i, p.m - 1, ci);
    MulMonotone(j, p.n - 1, cj);
  }

  /** `(a + a_offset) * (b + b_offset)`, the l-th product of cell (i, j). */
  function Product(p: GemmParams, a: seq<byte>, b: seq<byte>, i: nat, j: nat, l: nat): int
    requires OperandsFit(p, |a|, |b|) && i < p.m && j < p.n && l < p.k
  {
    OperandIndicesInBounds(p, |a|, |b|, i, j, l);
    (a[AIndex(p, i, l)] + p.aOffset) * (b[BIndex(p, l, j)] + p.bOffset)
  }

  /** The accumulator of cell (i, j) after the products for l = 0 .. count-1. */
  function Dot(p: GemmParams, a: seq<byte>, b: seq<byte>, i: nat, j: nat, count: nat): int
    requires OperandsFit(p, |a|, |b|) && i < p.m && j < p.n && count <= p.k
  {
    if count == 0 then 0 else Dot(p, a, b, i, j, count - 1) + Product(p, a, b, i, j, count - 1)
  }

  /** `((total + c_offset) * c_mult_int + kRoundingTerm) >> c_shift`, before the clamp. */
  function RawCell(p: GemmParams, a: seq<byte>, b: seq<byte>, i: nat, j: nat): int
    requires OperandsFit(p, |a|, |b|) && i < p.m && j < p.n
  {
    Rescale(Dot(p, a, b, i, j, p.k), p.cOffset, p.cMult, p.cShift)
  }

  /** The byte stored for cell (i, j): the raw value saturated to [0, 255]. */
  function CellValue(p: GemmParams, a: seq<byte>, b: seq<byte>, i: nat, j: nat): byte
    requires OperandsFit(p, |a|, |b|) && i < p.m && j < p.n
  {
    ClampToByte(RawCell(p, a, b, i, j))
  }

  /**
   * The output buffer once columns 0 .. j-1 are done (the `j` loop), and
   * once in addition rows 0 .. i-1 of column j are done (the `i` loop).
   * Stores happen in exactly this order, so if two cells share a position
   * the later one is what remains.
   */
  function ColumnsDone(p: GemmParams, a: seq<byte>, b: seq<byte>, c0: seq<byte>, j: nat): (r: seq<byte>)
    requires Fits(p, |a|, |b|, |c0|) && j <= p.n
    ensures |r| == |c0|
    decreases j, 0, 0
  {
    if j == 0 then c0 else CellsDone(p, a, b, c0, j - 1, p.m)
  }

  function CellsDone(p: GemmParams, a: seq<byte>, b: seq<byte>, c0: seq<byte>, j: nat, i: nat): (r: seq<byte>)
    requires Fits(p, |a|, |b|, |c0|) && j < p.n && i <= p.m
    ensures |r| == |c0|
    decreases j, 1, i
  {
    if i == 0 then ColumnsDone(p, a, b, c0, j)
    else
      var before := CellsDone(p, a, b, c0, j, i - 1);
      CellIndexInBounds(p, |a|, |b|, |c0|, i - 1, j);
      before[CIndex(p, i - 1, j) := CellValue(p, a, b, i - 1, j)]
  }

  /** The output buffer after the whole call, starting from c0. */
  function GemmResult(p: GemmParams, a: seq<byte>, b: seq<byte>, c0: seq<byte>): (r: seq<byte>)
    requires Fits(p, |a|, |b|, |c0|)
    ensures |r| == |c0|
  {
    ColumnsDone(p, a, b, c0, p.n)
  }

  /**
   * The int32_t arithmetic of the source stays in range: each operand with
   * its offset, each product, every prefix of the accumulation and each
   * step of the rescale.
   */
  ghost predicate Int32Safe(p: GemmParams, a: seq<byte>, b: seq<byte>)
    requires OperandsFit(p, |a|, |b|)
  {
    && IsInt32(p.aOffset) && IsInt32(p.bOffset) && IsInt32(p.cOffset) && IsInt32(p.cMult)
    && (forall i: nat, j: nat, l: nat | i < p.m && j < p.n && l < p.k ::
          OperandIndicesInBounds(p, |a|, |b|, i, j, l);
          && IsInt32(a[AIndex(p, i, l)] + p.aOffset)
          && IsInt32(b[BIndex(p, l, j)] + p.bOffset)
          && IsInt32(Product(p, a, b, i, j, l))
          && IsInt32(Dot(p, a, b, i, j, l + 1)))
    && (forall i: nat, j: nat | i < p.m && j < p.n ::
          && IsInt32(Dot(p, a, b, i, j, p.k) + p.cOffset)
          && IsInt32((Dot(p, a, b, i, j, p.k) + p.cOffset) * p.cMult)
          && IsInt32((Dot(p, a, b, i, j, p.k) + p.cOffset) * p.cMult + RoundingTerm(p.cShift)))
  }

  // ---------------------------------------------------------------------
  // Properties of the specification

  /**
   * No two cells of the m x n grid share a position of C: a row-major C
   * needs rows at least n apart, a column-major one columns at least m
   * apart (or there is only one row / column).
   */
  predicate CellsDistinct(p: GemmParams) {
    if p.transposeC then p.n <= 1 || p.m <= p.ldc else p.m <= 1 || p.n <= p.ldc
  }

  lemma CIndexInjective(p: GemmParams, i: nat, j: nat, i': nat, j': nat)
    requires CellsDistinct(p) && i < p.m && j < p.n && i' < p.m && j' < p.n
    requires CIndex(p, i, j) == CIndex(p, i', j')
    ensures i == i' && j == j'
  {
    if p.transposeC {
      if j < j' {
        Layout.MulAddLess(j, i, p.ldc, j', i');
      } else if j' < j {
        Layout.MulAddLess(j', i', p.ldc, j, i);
      }
    } else {
      if i < i' {
        Layout.MulAddLess(i, j, p.ldc, i', j');
      } else if i' < i {
        Layout.MulAddLess(i', j', p.ldc, i, j);
      }
    }
  }

  /** Cell (i', j') is visited before the loops reach (i, j) of column j. */
  predicate Visited(j: nat, i: nat, i': nat, j': nat) {
    j' < j || (j' == j && i' < i)
  }

  lemma {:induction false} CellsDoneHolds(p: GemmParams, a: seq<byte>, b: seq<byte>, c0: seq<byte>, j: nat, i: nat, i': nat, j': nat)
    requires Fits(p, |a|, |b|, |c0|) && j < p.n && i <= p.m && CellsDistinct(p)
    requires i' < p.m && Visited(j, i, i', j')
    ensures CIndex(p, i', j') < |c0|
    ensures CellsDone(p, a, b, c0, j, i)[CIndex(p, i', j')] == CellValue(p, a, b, i', j')
    decreases j, 1, i
  {
    CellIndexInBounds(p, |a|, |b|, |c0|, i', j');
    if i == 0 {
      ColumnsDoneHolds(p, a, b, c0, j, i', j');
    } else if i' == i - 1 && j' == j {
    } else {
      if CIndex(p, i', j') == CIndex(p, i - 1, j) {
        CIndexInjective(p, i', j', i - 1, j);
      }
      CellsDoneHolds(p, a, b, c0, j, i - 1, i', j');
    }
  }

  lemma {:induction false} ColumnsDoneHolds(p: GemmParams, a: seq<byte>, b: seq<byte>, c0: seq<byte>, j: nat, i': nat, j': nat)
    requires Fits(p, |a|, |b|, |c0|) && j <= p.n && CellsDistinct(p)
    requires i' < p.m && j' < j
    ensures CIndex(p, i', j') < |c0|
    ensures ColumnsDone(p, a, b, c0, j)[CIndex(p, i', j')] == CellValue(p, a, b, i', j')
    decreases j, 0, 0
  {
    CellsDoneHolds(p, a, b, c0, j - 1, p.m, i', j');
  }

  /** A position no cell maps to keeps its old byte, however far the loops have got. */
  lemma {:induction false} CellsDoneKeeps(p: GemmParams, a: seq<byte>, b: seq<byte>, c0: seq<byte>, j: nat, i: nat, q: int)
    requires Fits(p, |a|, |b|, |c0|) && j < p.n && i <= p.m && 0 <= q < |c0|
    requires forall i': nat, j': nat | i' < p.m && j' < p.n :: CIndex(p, i', j') != q
    ensures CellsDone(p, a, b, c0, j, i)[q] == c0[q]
    decreases j, 1, i
  {
    if i == 0 {
      ColumnsDoneKeeps(p, a, b, c0, j, q);
    } else {
      assert CIndex(p, i - 1, j) != q;
      CellsDoneKeeps(p, a, b, c0, j, i - 1, q);
    }
  }

  lemma {:induction false} ColumnsDoneKeeps(p: GemmParams, a: seq<byte>, b: seq<byte>, c0: seq<byte>, j: nat, q: int)
    requires Fits(p, |a|, |b|, |c0|) && j <= p.n && 0 <= q < |c0|
    requires forall i': nat, j': nat | i' < p.m && j' < p.n :: CIndex(p, i', j') != q
    ensures ColumnsDone(p, a, b, c0, j)[q] == c0[q]
    decreases j, 0, 0
  {
    if j > 0 {
      CellsDoneKeeps(p, a, b, c0, j - 1, p.m, q);
    }
  }

  /**
   * With a layout in which cells do not collide, each cell (i, j) of the
   * result holds its own saturated value: it is written once and never
   * overwritten.
   */
  lemma GemmResultAt(p: GemmParams, a: seq<byte>, b: seq<byte>, c0: seq<byte>, i: nat, j: nat)
    requires Fits(p, |a|, |b|, |c0|) && CellsDistinct(p) && i < p.m && j < p.n
    ensures CIndex(p, i, j) < |c0|
    ensures GemmResult(p, a, b, c0)[CIndex(p, i, j)] == CellValue(p, a, b, i, j)
  {
    ColumnsDoneHolds(p, a, b, c0, p.n, i, j);
  }

  /** Only the m x n cell positions of C are written: every other byte is as it was. */
  lemma GemmResultElsewhere(p: GemmParams, a: seq<byte>, b: seq<byte>, c0: seq<byte>, q: int)
    requires Fits(p, |a|, |b|, |c0|) && 0 <= q < |c0|
    requires forall i: nat, j: nat | i < p.m && j < p.n :: CIndex(p, i, j) != q
    ensures GemmResult(p, a, b, c0)[q] == c0[q]
  {
    ColumnsDoneKeeps(p, a, b, c0, p.n, q);
  }

  /** The stored byte saturates the raw value: above 255 gives 255, below 0 gives 0, anything else is kept. */
  lemma CellValueSaturates(p: GemmParams, a: seq<byte>, b: seq<byte>, i: nat, j: nat)
    requires OperandsFit(p, |a|, |b|) && i < p.m && j < p.n
    ensures var raw := RawCell(p, a, b, i, j);
      CellValue(p, a, b, i, j) == (if raw > 255 then 255 else if raw < 0 then 0 else raw)
  {
  }

  /** With both zero points 0 every product is a product of bytes, so the accumulator never goes negative. */
  lemma {:induction false} DotNonnegativeForZeroOffsets(p: GemmParams, a: seq<byte>, b: seq<byte>, i: nat, j: nat, count: nat)
    requires OperandsFit(p, |a|, |b|) && i < p.m && j < p.n && count <= p.k
    requires p.aOffset == 0 && p.bOffset == 0
    ensures Dot(p, a, b, i, j, count) >= 0
  {
    if count > 0 {
      DotNonnegativeForZeroOffsets(p, a, b, i, j, count - 1);
      OperandIndicesInBounds(p, |a|, |b|, i, j, count - 1);
      Layout.MulNonneg(a[AIndex(p, i, count - 1)], b[BIndex(p, count - 1, j)]);
    }
  }

  // ---------------------------------------------------------------------
  // The known answer of the small benchmark

  /**
   * The small benchmark: A is 2 x 3 holding 1 .. 6 row-major, B is 3 x 4
   * holding 7 .. 18 row-major, nothing transposed, lda = 3, ldb = ldc = 4,
   * zero offsets, multiplier 1, no shift.
   */
  ghost predicate IsSmall(p: GemmParams, a: seq<byte>, b: seq<byte>) {
    && p == GemmParams(false, false, false, 2, 4, 3, 0, 3, 0, 4, 0, 1, 0, 4)
    && |a| == 6 && (forall q | 0 <= q < 6 :: a[q] == q + 1)
    && |b| == 12 && (forall q | 0 <= q < 12 :: b[q] == q + 7)
  }

  /** The hand-computed products of the test, row by column. */
  function SmallDot(i: int, j: int): int {
    SmallTerm(i, j, 0) + SmallTerm(i, j, 1) + SmallTerm(i, j, 2)
  }

  /** Product l of cell (i, j): A holds 1 .. 6 and B holds 7 .. 18, both row-major. */
  function SmallTerm(i: int, j: int, l: int): int {
    (3 * i + l + 1) * (j + 4 * l + 7)
  }

  lemma SmallProduct(p: GemmParams, a: seq<byte>, b: seq<byte>, i: nat, j: nat, l: nat)
    requires IsSmall(p, a, b) && i < 2 && j < 4 && l < 3
    ensures Product(p, a, b, i, j, l) == SmallTerm(i, j, l)
  {
    assert AIndex(p, i, l) == 3 * i + l && BIndex(p, l, j) == 4 * l + j;
  }

  lemma SmallDotIs(p: GemmParams, a: seq<byte>, b: seq<byte>, i: nat, j: nat)
    requires IsSmall(p, a, b) && i < 2 && j < 4
    ensures Dot(p, a, b, i, j, 3) == SmallDot(i, j)
  {
    SmallProduct(p, a, b, i, j, 0);
    SmallProduct(p, a, b, i, j, 1);
    SmallProduct(p, a, b, i, j, 2);
    assert Dot(p, a, b, i, j, 1) == Product(p, a, b, i, j, 0);
  }

  const SmallExpected: seq<byte> := [74, 80, 86, 92, 173, 188, 203, 218]

  lemma SmallDotTable(i: int, j: int)
    requires 0 <= i < 2 && 0 <= j < 4
    ensures SmallDot(i, j) == SmallExpected[4 * i + j]
  {
    if i == 0 {
      assert SmallDot(0, j) == 6 * j + 74;
    } else {
      assert SmallDot(1, j) == 15 * j + 173;
    }
  }

  lemma SmallCellValue(p: GemmParams, a: seq<byte>, b: seq<byte>, i: nat, j: nat)
    requires IsSmall(p, a, b) && i < 2 && j < 4
    ensures OperandsFit(p, |a|, |b|)
    ensures CellValue(p, a, b, i, j) == SmallExpected[4 * i + j]
  {
    SmallDotIs(p, a, b, i, j);
    SmallDotTable(i, j);
    RescaleRoundsHalfUp(SmallDot(i, j), 0, 1, 0);
  }

  lemma SmallFirstRow(p: GemmParams, a: seq<byte>, b: seq<byte>, c0: seq<byte>, j: nat)
    requires IsSmall(p, a, b) && |c0| == 8 && j < 4
    ensures Fits(p, |a|, |b|, |c0|)
    ensures GemmResult(p, a, b, c0)[j] == SmallExpected[j]
  {
    SmallCellValue(p, a, b, 0, j);
    GemmResultAt(p, a, b, c0, 0, j);
  }

  lemma SmallSecondRow(p: GemmParams, a: seq<byte>, b: seq<byte>, c0: seq<byte>, j: nat)
    requires IsSmall(p, a, b) && |c0| == 8 && j < 4
    ensures Fits(p, |a|, |b|, |c0|)
    ensures GemmResult(p, a, b, c0)[4 + j] == SmallExpected[4 + j]
  {
    SmallCellValue(p, a, b, 1, j);
    GemmResultAt(p, a, b, c0, 1, j);
  }

  /**
   * The whole 2 x 4 result, whatever C held before, is the test's
   * expected_c_data, element by element.
   */
  lemma SmallGemmKnownAnswer(p: GemmParams, a: seq<byte>, b: seq<byte>, c0: seq<byte>)
    requires IsSmall(p, a, b) && |c0| == 8
    ensures Fits(p, |a|, |b|, |c0|)
    ensures forall q | 0 <= q < 8 :: GemmResult(p, a, b, c0)[q] == SmallExpected[q]
  {
    forall q | 0 <= q < 8
      ensures GemmResult(p, a, b, c0)[q] == SmallExpected[q]
    {
      if q < 4 {
        SmallFirstRow(p, a, b, c0, q);
      } else {
        SmallSecondRow(p, a, b, c0, q - 4);
      }
    }
  }

  // ---------------------------------------------------------------------
  // The kernel

  /** The `l` loop: the accumulator of cell (i, j). */
  method CellTotal(a: array<byte>, b: array<byte>, p: GemmParams, i: nat, j: nat,
                   aIStride: nat, aLStride: nat, bJStride: nat, bLStride: nat) returns (total: int)
    requires OperandsFit(p, a.Length, b.Length) && i < p.m && j < p.n
    requires (aIStride, aLStride) == AStrides(p) && (bJStride, bLStride) == BStrides(p)
    ensures total == Dot(p, a[..], b[..], i, j, p.k)
  {
    total := 0;
    var l := 0;
    while l < p.k
      invariant 0 <= l <= p.k
      invariant total == Dot(p, a[..], b[..], i, j, l)
    {
      OperandIndicesInBounds(p, a.Length, b.Length, i, j, l);
      var aIndex := i * aIStride + l * aLStride;
      var aAsInt := a[aIndex] + p.aOffset;
      var bIndex := j * bJStride + l * bLStride;
      var bAsInt := b[bIndex] + p.bOffset;
      var multAsInt := aAsInt * bAsInt;
      total := total + multAsInt;
      l := l + 1;
    }
  }

  /** One pass of the `i` loop body: accumulate, rescale, saturate and store cell (i, j). */
  method StoreCell(a: array<byte>, b: array<byte>, c: array<byte>, p: GemmParams, i: nat, j: nat,
                   aIStride: nat, aLStride: nat, bJStride: nat, bLStride: nat,
                   cIStride: nat, cJStride: nat, kRoundingTerm: int)
    requires Fits(p, a.Length, b.Length, c.Length) && i < p.m && j < p.n
    requires c != a && c != b
    requires (aIStride, aLStride) == AStrides(p) && (bJStride, bLStride) == BStrides(p)
    requires (cIStride, cJStride) == CStrides(p) && kRoundingTerm == RoundingTerm(p.cShift)
    modifies c
    ensures CIndex(p, i, j) < c.Length
    ensures c[..] == old(c[..])[CIndex(p, i, j) := CellValue(p, a[..], b[..], i, j)]
  {
    var total := CellTotal(a, b, p, i, j, aIStride, aLStride, bJStride, bLStride);
    var output := ShiftRight((total + p.cOffset) * p.cMult + kRoundingTerm, p.cShift);
    if output > 255 {
      output := 255;
    }
    if output < 0 {
      output := 0;
    }
    CellIndexInBounds(p, a.Length, b.Length, c.Length, i, j);
    var cIndex := i * cIStride + j * cJStride;
    c[cIndex] := output;
  }

  /** The `j` / `i` loop nest of `ReferenceEightBitIntGemm`, with the strides and rounding term already chosen. */
  method StoreAllCells(a: array<byte>, b: array<byte>, c: array<byte>, p: GemmParams,
                       aIStride: nat, aLStride: nat, bJStride: nat, bLStride: nat,
                       cIStride: nat, cJStride: nat, kRoundingTerm: int)
    requires Fits(p, a.Length, b.Length, c.Length)
    requires c != a && c != b
    requires (aIStride, aLStride) == AStrides(p) && (bJStride, bLStride) == BStrides(p)
    requires (cIStride, cJStride) == CStrides(p) && kRoundingTerm == RoundingTerm(p.cShift)
    modifies c
    ensures c[..] == GemmResult(p, a[..], b[..], old(c[..]))
  {
    ghost var C0, A, B := c[..], a[..], b[..];
    var j := 0;
    while j < p.n
      invariant 0 <= j <= p.n
      invariant a[..] == A && b[..] == B
      invariant c[..] == ColumnsDone(p, A, B, C0, j)
    {
      var i := 0;
      while i < p.m
        invariant 0 <= i <= p.m
        invariant a[..] == A && b[..] == B
        invariant c[..] == CellsDone(p, A, B, C0, j, i)
      {
        StoreCell(a, b, c, p, i, j, aIStride, aLStride, bJStride, bLStride, cIStride, cJStride, kRoundingTerm);
        i := i + 1;
      }
      assert c[..] == ColumnsDone(p, A, B, C0, j + 1);
      j := j + 1;
    }
  }

  /** The model of `ReferenceEightBitIntGemm`. */
  method ReferenceEightBitIntGemm(a: array<byte>, b: array<byte>, c: array<byte>, p: GemmParams)
    requires Fits(p, a.Length, b.Length, c.Length)
    requires c != a && c != b
    requires Int32Safe(p, a[..], b[..])
    modifies c
    ensures c[..] == GemmResult(p, a[..], b[..], old(c[..]))
    ensures unchanged(a) && unchanged(b)
  {
    var aIStride, aLStride;
    if p.transposeA {
      aIStride, aLStride := 1, p.lda;
    } else {
      aIStride, aLStride := p.lda, 1;
    }
    var bJStride, bLStride;
    if p.transposeB {
      bJStride, bLStride := p.ldb, 1;
    } else {
      bJStride, bLStride := 1, p.ldb;
    }
    var cIStride, cJStride;
    if p.transposeC {
      cIStride, cJStride := 1, p.ldc;
    } else {
      cIStride, cJStride := p.ldc, 1;
    }
    var kRoundingTerm := if p.cShift < 1 then 0 else Pow2(p.cShift - 1);
    StoreAllCells(a, b, c, p, aIStride, aLStride, bJStride, bLStride, cIStride, cJStride, kRoundingTerm);
  }
}
