/**
 * Row-major addressing of a four-dimensional tensor stored in one flat
 * buffer. The convolution uses it three times: NHWC input and output
 * ([batch][y][x][channel]) and the filter ([y][x][in_channel][out_channel]).
 */
module Layout {

  /**
   * Offset of element (i0, i1, i2, i3) of a tensor whose inner extents are
   * n1, n2 and n3, written as the kernels compute it:
   * `i0 * n1 * n2 * n3 + i1 * n2 * n3 + i2 * n3 + i3`.
   */
  function Offset4(i0: int, i1: int, i2: int, i3: int, n1: int, n2: int, n3: int): int {
    i0 * n1 * n2 * n3 + i1 * n2 * n3 + i2 * n3 + i3
  }

  /** Lexicographic order on index tuples: the order the kernels' loops visit them. */
  predicate Before4(i0: int, i1: int, i2: int, i3: int, j0: int, j1: int, j2: int, j3: int) {
    i0 < j0 || (i0 == j0 && (i1 < j1 || (i1 == j1 && (i2 < j2 || (i2 == j2 && i3 < j3)))))
  }

  lemma Offset4Nested(i0: int, i1: int, i2: int, i3: int, n1: int, n2: int, n3: int)
    ensures Offset4(i0, i1, i2, i3, n1, n2, n3) == ((i0 * n1 + i1) * n2 + i2) * n3 + i3
  {
    calc {
      ((i0 * n1 + i1) * n2 + i2) * n3 + i3;
      (i0 * n1 * n2 + i1 * n2 + i2) * n3 + i3;
      i0 * n1 * n2 * n3 + i1 * n2 * n3 + i2 * n3 + i3;
    }
  }

  lemma MulNonneg(a: int, b: int)
    requires a >= 0 && b >= 0
    ensures a * b >= 0
  {
  }

  /** If a < a' and x < w then a * w + x < a' * w + x' for every x' >= 0. */
  lemma MulAddLess(a: int, x: int, w: int, a': int, x': int)
    requires 0 <= x < w && a < a' && x' >= 0
    ensures a * w + x < a' * w + x'
  {
    MulNonneg(a' - a - 1, w);
    assert (a' - a - 1) * w == a' * w - a * w - w;
  }

  /** Offsets grow strictly with the loops' visiting order. */
  lemma Offset4Monotone(i0: int, i1: int, i2: int, i3: int, j0: int, j1: int, j2: int, j3: int,
                        n1: int, n2: int, n3: int)
    requires 0 <= i1 < n1 && 0 <= i2 < n2 && 0 <= i3 < n3
    requires 0 <= j1 && 0 <= j2 && 0 <= j3
    requires Before4(i0, i1, i2, i3, j0, j1, j2, j3)
    ensures Offset4(i0, i1, i2, i3, n1, n2, n3) < Offset4(j0, j1, j2, j3, n1, n2, n3)
  {
    Offset4Nested(i0, i1, i2, i3, n1, n2, n3);
    Offset4Nested(j0, j1, j2, j3, n1, n2, n3);
    var a1, b1 := i0 * n1 + i1, j0 * n1 + j1;
    var a2, b2 := a1 * n2 + i2, b1 * n2 + j2;
    if i0 < j0 {
      MulAddLess(i0, i1, n1, j0, j1);
    }
    assert a1 <= b1;
    if a1 < b1 {
      MulAddLess(a1, i2, n2, b1, j2);
    }
    assert a2 <= b2;
    if a2 < b2 {
      MulAddLess(a2, i3, n3, b2, j3);
    }
  }

  /** An in-range index tuple lands inside a buffer of n0 * n1 * n2 * n3 elements. */
  lemma Offset4Below(i0: int, i1: int, i2: int, i3: int, n0: int, n1: int, n2: int, n3: int)
    requires 0 <= i0 < n0 && 0 <= i1 < n1 && 0 <= i2 < n2 && 0 <= i3 < n3
    ensures 0 <= Offset4(i0, i1, i2, i3, n1, n2, n3) < n0 * n1 * n2 * n3
  {
    Offset4Monotone(i0, i1, i2, i3, n0, 0, 0, 0, n1, n2, n3);
    Offset4Nested(i0, i1, i2, i3, n1, n2, n3);
    MulNonneg(i0, n1);
    MulNonneg(i0 * n1 + i1, n2);
    MulNonneg((i0 * n1 + i1) * n2 + i2, n3);
    assert Offset4(n0, 0, 0, 0, n1, n2, n3) == n0 * n1 * n2 * n3;
  }

  /**
   * Carries of the loop nest: stepping past the last index of one level
   * lands on the first index of the next element of the level above.
   */
  lemma Offset4Carry(i0: int, i1: int, i2: int, n1: int, n2: int, n3: int)
    ensures Offset4(i0, i1, i2, n3, n1, n2, n3) == Offset4(i0, i1, i2 + 1, 0, n1, n2, n3)
    ensures Offset4(i0, i1, n2, 0, n1, n2, n3) == Offset4(i0, i1 + 1, 0, 0, n1, n2, n3)
    ensures Offset4(i0, n1, 0, 0, n1, n2, n3) == Offset4(i0 + 1, 0, 0, 0, n1, n2, n3)
  {
    assert (i2 + 1) * n3 == i2 * n3 + n3;
    assert (i1 + 1) * n2 * n3 == i1 * n2 * n3 + n2 * n3;
    assert (i0 + 1) * n1 * n2 * n3 == i0 * n1 * n2 * n3 + n1 * n2 * n3;
  }

  /** One whole innermost row starting at (i0, i1, i2, 0) still fits in n0 * n1 * n2 * n3 elements. */
  lemma Offset4RowFits(i0: int, i1: int, i2: int, n0: int, n1: int, n2: int, n3: int)
    requires 0 <= i0 < n0 && 0 <= i1 < n1 && 0 <= i2 < n2 && 0 <= n3
    ensures 0 <= Offset4(i0, i1, i2, 0, n1, n2, n3)
    ensures Offset4(i0, i1, i2, 0, n1, n2, n3) + n3 <= n0 * n1 * n2 * n3
  {
    if n3 == 0 {
      assert Offset4(i0, i1, i2, 0, n1, n2, n3) == 0;
    } else {
      Offset4Below(i0, i1, i2, n3 - 1, n0, n1, n2, n3);
      Offset4Below(i0, i1, i2, 0, n0, n1, n2, n3);
    }
  }

  /** Distinct in-range tuples have distinct offsets: each element has one place. */
  lemma Offset4Injective(i0: int, i1: int, i2: int, i3: int, j0: int, j1: int, j2: int, j3: int,
                         n1: int, n2: int, n3: int)
    requires 0 <= i1 < n1 && 0 <= i2 < n2 && 0 <= i3 < n3
    requires 0 <= j1 < n1 && 0 <= j2 < n2 && 0 <= j3 < n3
    requires Offset4(i0, i1, i2, i3, n1, n2, n3) == Offset4(j0, j1, j2, j3, n1, n2, n3)
    ensures i0 == j0 && i1 == j1 && i2 == j2 && i3 == j3
  {
    if Before4(i0, i1, i2, i3, j0, j1, j2, j3) {
      Offset4Monotone(i0, i1, i2, i3, j0, j1, j2, j3, n1, n2, n3);
    } else if Before4(j0, j1, j2, j3, i0, i1, i2, i3) {
      Offset4Monotone(j0, j1, j2, j3, i0, i1, i2, i3, n1, n2, n3);
    }
  }

  /** Quotient and remainder are determined by `n == q * d + r` with 0 <= r < d. */
  lemma DivModUnique(n: int, d: int, q: int, r: int)
    requires d > 0 && 0 <= r < d && n == q * d + r
    ensures n / d == q && n % d == r
  {
    var q', r' := n / d, n % d;
    assert n == q' * d + r';
    if q' < q {
      MulAddLess(q', r', d, q, r);
    } else if q < q' {
      MulAddLess(q, r, d, q', r');
    }
  }

  /** The tuple stored at `offset`: the inverse of Offset4 on in-range offsets. */
  function Decode4(offset: int, n1: int, n2: int, n3: int): (r: (int, int, int, int))
    requires offset >= 0 && n1 > 0 && n2 > 0 && n3 > 0
  {
    var q3 := offset / n3;
    var q2 := q3 / n2;
    (q2 / n1, q2 % n1, q3 % n2, offset % n3)
  }

  /** Every offset inside the buffer is the offset of exactly the tuple Decode4 returns. */
  lemma Decode4Inverse(offset: int, n0: int, n1: int, n2: int, n3: int)
    requires 0 <= offset < n0 * n1 * n2 * n3 && n1 > 0 && n2 > 0 && n3 > 0
    ensures var t := Decode4(offset, n1, n2, n3);
      0 <= t.0 < n0 && 0 <= t.1 < n1 && 0 <= t.2 < n2 && 0 <= t.3 < n3 &&
      Offset4(t.0, t.1, t.2, t.3, n1, n2, n3) == offset
  {
    var t := Decode4(offset, n1, n2, n3);
    var q3 := offset / n3;
    var q2 := q3 / n2;
    assert offset == q3 * n3 + t.3;
    assert q3 == q2 * n2 + t.2;
    assert q2 == t.0 * n1 + t.1;
    Offset4Nested(t.0, t.1, t.2, t.3, n1, n2, n3);
    assert 0 <= t.0 by {
      MulNonneg(q3, n3);
      if q3 < 0 { MulAddLess(q3, t.3, n3, 0, 0); }
      if q2 < 0 { MulAddLess(q2, t.2, n2, 0, 0); }
      if t.0 < 0 { MulAddLess(t.0, t.1, n1, 0, 0); }
    }
    assert t.0 < n0 by {
      assert Offset4(n0, 0, 0, 0, n1, n2, n3) == n0 * n1 * n2 * n3;
      if t.0 >= n0 {
        Offset4Monotone(n0, 0, 0, 0, t.0, t.1, t.2, t.3, n1, n2, n3);
      }
    }
  }

  /** Decode4 recovers the tuple an in-range offset was computed from. */
  lemma Decode4OfOffset4(i0: int, i1: int, i2: int, i3: int, n1: int, n2: int, n3: int)
    requires 0 <= i0 && 0 <= i1 < n1 && 0 <= i2 < n2 && 0 <= i3 < n3
    ensures Offset4(i0, i1, i2, i3, n1, n2, n3) >= 0
    ensures Decode4(Offset4(i0, i1, i2, i3, n1, n2, n3), n1, n2, n3) == (i0, i1, i2, i3)
  {
    var offset := Offset4(i0, i1, i2, i3, n1, n2, n3);
    Offset4Nested(i0, i1, i2, i3, n1, n2, n3);
    MulNonneg(i0, n1);
    MulNonneg(i0 * n1 + i1, n2);
    MulNonneg((i0 * n1 + i1) * n2 + i2, n3);
    DivModUnique(offset, n3, (i0 * n1 + i1) * n2 + i2, i3);
    DivModUnique((i0 * n1 + i1) * n2 + i2, n2, i0 * n1 + i1, i2);
    DivModUnique(i0 * n1 + i1, n1, i0, i1);
  }
}
