/**
 * What the string utilities mean, independent of how they walk their
 * buffers: zero-terminated strings inside a char buffer, the digit
 * strings the number formatters produce, and the reversal they use to
 * put digits in reading order.
 */
module CString {
  import opened FixedPoint
  import Layout

  // ---------------------------------------------------------------------
  // Zero-terminated strings

  const Nul: char := '\0'

  /** Position of the first NUL of a buffer that holds one: the C string's length. */
  function StrLen(s: seq<char>): (n: nat)
    requires Nul in s
    ensures n < |s| && s[n] == Nul
    ensures forall k | 0 <= k < n :: s[k] != Nul
  {
    if s[0] == Nul then 0 else 1 + StrLen(s[1..])
  }

  /** The C string a buffer holds: everything before its first NUL. */
  function CStr(s: seq<char>): (r: string)
    requires Nul in s
    ensures Nul !in r && |r| < |s| && s[|r|] == Nul
  {
    s[..StrLen(s)]
  }

  /** The buffer holds the C string r: r's characters, then a NUL. */
  predicate Holds(s: seq<char>, r: string) {
    Nul !in r && |r| < |s| && s[..|r|] == r && s[|r|] == Nul
  }

  /** Writing a NUL-free text followed by a NUL is what makes a buffer hold that text. */
  lemma {:induction false} CStrOfTerminated(s: seq<char>, r: string)
    requires Holds(s, r)
    ensures Nul in s && CStr(s) == r
  {
    if r != [] {
      assert s[1..][..|r| - 1] == r[1..];
      CStrOfTerminated(s[1..], r[1..]);
    }
  }

  // ---------------------------------------------------------------------
  // Reversal

  function Reverse<T>(s: seq<T>): (r: seq<T>)
    ensures |r| == |s|
  {
    if s == [] then [] else Reverse(s[1..]) + [s[0]]
  }

  /** Element k of the reversal is the k-th element from the end. */
  lemma {:induction false} ReverseAt<T>(s: seq<T>, k: int)
    requires 0 <= k < |s|
    ensures Reverse(s)[k] == s[|s| - 1 - k]
  {
    if k < |s| - 1 {
      ReverseAt(s[1..], k);
    }
  }

  /** A sequence equals the reversal of another exactly when it reads it backwards. */
  lemma ReverseByIndex<T>(s: seq<T>, r: seq<T>)
    requires |r| == |s| && forall k | 0 <= k < |s| :: r[k] == s[|s| - 1 - k]
    ensures r == Reverse(s)
  {
    forall k | 0 <= k < |s|
      ensures r[k] == Reverse(s)[k]
    {
      ReverseAt(s, k);
    }
  }

  lemma ReverseAppend<T>(s: seq<T>, t: seq<T>)
    ensures Reverse(s + t) == Reverse(t) + Reverse(s)
  {
    var l, r := Reverse(s + t), Reverse(t) + Reverse(s);
    forall k | 0 <= k < |l|
      ensures l[k] == r[k]
    {
      ReverseAt(s + t, k);
      if k < |t| {
        ReverseAt(t, k);
      } else {
        ReverseAt(s, k - |t|);
      }
    }
  }

  /** Reversing twice gives the original back. */
  lemma ReverseInvolution<T>(s: seq<T>)
    ensures Reverse(Reverse(s)) == s
  {
    forall k | 0 <= k < |s|
      ensures Reverse(Reverse(s))[k] == s[k]
    {
      ReverseAt(Reverse(s), k);
      ReverseAt(s, |s| - 1 - k);
    }
  }

  // ---------------------------------------------------------------------
  // Digits

  /** The bases whose digit characters `'0' + d` / `'a' + (d - 10)` stay printable ASCII. */
  predicate IsBase(base: int) {
    2 <= base <= 40
  }

  /** Euclid's division by the base, the one nonlinear fact the digit loops rest on. */
  lemma DivideByBase(i: nat, base: int)
    requires IsBase(base)
    ensures i == base * (i / base) + i % base && 0 <= i % base < base
    ensures i / base > 0 <==> i >= base
    ensures i / base < i || i == 0
    ensures i < base ==> i / base == 0 && i % base == i
  {
    var q, r := i / base, i % base;
    if q > 0 {
      Layout.MulNonneg(base, q - 1);
      Layout.MulNonneg(base - 2, q);
    }
  }

  /** The character written for digit d: '0' .. '9', then 'a', 'b', ... */
  function DigitChar(d: nat): (c: char)
    requires d < 40
    ensures '0' <= c <= '9' || 'a' <= c <= '~'
  {
    if d < 10 then ('0' as int + d) as char else ('a' as int + (d - 10)) as char
  }

  /** The inverse reading of a digit character. */
  function DigitValue(c: char): int {
    if '0' <= c <= '9' then c as int - '0' as int else c as int - 'a' as int + 10
  }

  lemma DigitCharValue(d: nat)
    requires d < 40
    ensures DigitValue(DigitChar(d)) == d
  {
  }

  /** The digits of i in the order the do-while loop produces them: least significant first. */
  function LeastFirst(i: nat, base: int): (r: string)
    requires IsBase(base)
    ensures |r| >= 1
    decreases i
  {
    DivideByBase(i, base);
    [DigitChar(i % base)] + (if i / base > 0 then LeastFirst(i / base, base) else [])
  }

  /** The digits of i in reading order, without leading zeros ("0" for zero). */
  function Digits(i: nat, base: int): (r: string)
    requires IsBase(base)
    ensures |r| >= 1 && Nul !in r
    decreases i
  {
    DivideByBase(i, base);
    if i < base then [DigitChar(i)] else Digits(i / base, base) + [DigitChar(i % base)]
  }

  /** Reading a digit string back as a number in `base`. */
  function ValueOf(s: string, base: int): int {
    if s == [] then 0 else ValueOf(s[..|s| - 1], base) * base + DigitValue(s[|s| - 1])
  }

  /** Reversing the order in which the loop writes digits gives the reading order. */
  lemma {:induction false} LeastFirstReversed(i: nat, base: int)
    requires IsBase(base)
    ensures Reverse(LeastFirst(i, base)) == Digits(i, base)
    decreases i
  {
    DivideByBase(i, base);
    var c := DigitChar(i % base);
    if i / base > 0 {
      LeastFirstReversed(i / base, base);
      ReverseAppend([c], LeastFirst(i / base, base));
      assert Reverse([c]) == [c];
    } else {
      assert Reverse([c]) == [c];
    }
  }

  /** Round trip: the digits of i read back as i. */
  lemma {:induction false} DigitsRoundTrip(i: nat, base: int)
    requires IsBase(base)
    ensures ValueOf(Digits(i, base), base) == i
    decreases i
  {
    if i < base {
      DivideByBase(i, base);
      assert Digits(i, base)[..0] == [];
      DigitCharValue(i);
    } else {
      var q, r := i / base, i % base;
      DivideByBase(i, base);
      DigitsRoundTrip(q, base);
      var d := Digits(q, base) + [DigitChar(r)];
      assert Digits(i, base) == d;
      assert d[..|d| - 1] == Digits(q, base);
      DigitCharValue(r);
      assert ValueOf(d, base) == ValueOf(Digits(q, base), base) * base + r == q * base + r;
    }
  }

  /**
   * Every character is a digit below `base`, and only zero itself starts
   * with '0'.
   */
  lemma {:induction false} DigitsCanonical(i: nat, base: int)
    requires IsBase(base)
    ensures forall k | 0 <= k < |Digits(i, base)| ::
      0 <= DigitValue(Digits(i, base)[k]) < base && DigitChar(DigitValue(Digits(i, base)[k])) == Digits(i, base)[k]
    ensures Digits(i, base)[0] == '0' <==> i == 0
    decreases i
  {
    DivideByBase(i, base);
    if i >= base {
      DigitsCanonical(i / base, base);
      var d := Digits(i, base);
      assert d[0] == Digits(i / base, base)[0];
      forall k | 0 <= k < |d|
        ensures 0 <= DigitValue(d[k]) < base && DigitChar(DigitValue(d[k])) == d[k]
      {
        if k == |d| - 1 {
          DigitCharValue(i % base);
        }
      }
    }
  }

  function Pow(base: nat, n: nat): (r: nat) {
    if n == 0 then 1 else base * Pow(base, n - 1)
  }

  lemma {:induction false} PowAdd(base: nat, m: nat, n: nat)
    ensures Pow(base, m + n) == Pow(base, m) * Pow(base, n)
    decreases m
  {
    if m > 0 {
      PowAdd(base, m - 1, n);
      assert Pow(base, m + n) == base * Pow(base, m - 1 + n);
    }
  }

  /** One digit more multiplies both bounds by the base. */
  lemma LengthStep(i: nat, q: nat, r: nat, base: nat, p: nat, p1: nat)
    requires i == base * q + r && r < base && q < p && p1 <= q && p == base * p1
    ensures i < base * p && p <= i
  {
    Layout.MulNonneg(base, p - q - 1);
    Layout.MulNonneg(base, q - p1);
  }

  /** The number of digits is the exponent sandwiching i: base^(len-1) <= i < base^len (i > 0). */
  lemma {:induction false} DigitsLength(i: nat, base: int)
    requires IsBase(base)
    ensures i < Pow(base, |Digits(i, base)|)
    ensures i == 0 || Pow(base, |Digits(i, base)| - 1) <= i
    decreases i
  {
    DivideByBase(i, base);
    if i < base {
      assert |Digits(i, base)| == 1 && Pow(base, 1) == base;
    } else {
      var q, r := i / base, i % base;
      var m := |Digits(q, base)|;
      assert |Digits(i, base)| == m + 1;
      DigitsLength(q, base);
      assert Pow(base, m + 1) == base * Pow(base, m);
      assert Pow(base, m) == base * Pow(base, m - 1);
      LengthStep(i, q, r, base, Pow(base, m), Pow(base, m - 1));
    }
  }

  lemma {:induction false} PowMonotoneExponent(base: nat, m: nat, n: nat)
    requires base >= 1 && m <= n
    ensures Pow(base, m) <= Pow(base, n)
    decreases n
  {
    if m < n {
      PowMonotoneExponent(base, m, n - 1);
      var q := Pow(base, n - 1);
      Layout.MulNonneg(base - 1, q);
      assert Pow(base, n) == base * q == (base - 1) * q + q;
    }
  }

  lemma {:induction false} PowMonotoneBase(b1: nat, b2: nat, n: nat)
    requires b1 <= b2
    ensures Pow(b1, n) <= Pow(b2, n)
    decreases n
  {
    if n > 0 {
      PowMonotoneBase(b1, b2, n - 1);
      var p1, p2 := Pow(b1, n - 1), Pow(b2, n - 1);
      Layout.MulNonneg(b2 - b1, p2);
      Layout.MulNonneg(b1, p2 - p1);
      assert b1 * p1 <= b1 * p2 <= b2 * p2;
    }
  }

  /** A number below base^n has at most n digits. */
  lemma DigitsAtMost(i: nat, base: int, n: nat)
    requires IsBase(base) && 1 <= n && i < Pow(base, n)
    ensures |Digits(i, base)| <= n
  {
    DigitsLength(i, base);
    if |Digits(i, base)| > n && i > 0 {
      PowMonotoneExponent(base, n, |Digits(i, base)| - 1);
    }
  }

  /** The `kFastToBufferSize` scratch buffer: 32 chars including the terminating NUL. */
  const FastToBufferSize := 32

  /** The two powers that bound a uint32's digit count: 2^31 and 3^21 > 2^32. */
  lemma PowValues()
    ensures Pow(2, 31) == 0x8000_0000 && Pow(3, 21) == 10460353203
  {
    PowAdd(2, 10, 10);
    PowAdd(2, 20, 11);
    assert Pow(2, 11) == 2048;
    PowAdd(3, 7, 7);
    PowAdd(3, 14, 7);
    assert Pow(3, 7) == 2187;
  }

  /**
   * A uint32 rendered in `base` leaves room for its NUL in the 32-char
   * scratch buffer unless the base is 2 and bit 31 is set (32 digits).
   */
  lemma UInt32DigitsFit(i: nat, base: int)
    requires IsBase(base) && i < 0x1_0000_0000
    ensures |Digits(i, base)| < FastToBufferSize <==> base >= 3 || i < 0x8000_0000
  {
    DigitsLength(i, base);
    var n := |Digits(i, base)|;
    PowValues();
    if base >= 3 {
      PowMonotoneBase(3, base, 21);
      DigitsAtMost(i, base, 21);
    } else if i < 0x8000_0000 {
      DigitsAtMost(i, base, 31);
    } else if n <= 31 {
      PowMonotoneExponent(2, n, 31);
    }
  }

  /** Every uint32 takes at most 32 digits in any base, so 33 chars hold it with its NUL. */
  lemma UInt32DigitsAtMost32(i: nat, base: int)
    requires IsBase(base) && i < 0x1_0000_0000
    ensures |Digits(i, base)| <= 32 && |Digits(i, base)| < FastToBufferSize + 1
  {
    PowValues();
    assert Pow(2, 32) == 2 * Pow(2, 31) == 0x1_0000_0000;
    PowMonotoneBase(2, base, 32);
    DigitsAtMost(i, base, 32);
  }

  /** 2^31 in base 2 is 32 digits: with its NUL, 33 chars in the 32-char scratch buffer. */
  lemma Base2TopBitOverflows()
    ensures |Digits(0x8000_0000, 2)| == 32
    ensures |Digits(0x8000_0000, 2)| + 1 > FastToBufferSize
  {
    UInt32DigitsFit(0x8000_0000, 2);
    UInt32DigitsAtMost32(0x8000_0000, 2);
  }

  // ---------------------------------------------------------------------
  // Signed decimal text

  /** The text FastInt32ToBufferLeft produces: an optional '-', then the decimal digits of |i|. */
  function Int32Text(i: int): (r: string)
    ensures Nul !in r
  {
    (if i < 0 then "-" else "") + Digits(Abs(i), 10)
  }

  /** Reading a signed decimal text back. */
  function ParseInt32Text(s: string): int {
    if |s| > 0 && s[0] == '-' then -ValueOf(s[1..], 10) else ValueOf(s, 10)
  }

  /** Round trip: the text of an int32 reads back as that int32. */
  lemma Int32TextRoundTrip(i: int)
    ensures ParseInt32Text(Int32Text(i)) == i
  {
    DigitsRoundTrip(Abs(i), 10);
    DigitsCanonical(Abs(i), 10);
    if i < 0 {
      assert Int32Text(i)[1..] == Digits(Abs(i), 10);
    } else {
      assert Int32Text(i) == Digits(Abs(i), 10);
    }
  }

  /** Every int32, INT32_MIN included, takes at most 11 characters, so 12 with the NUL. */
  lemma Int32TextFits(i: int)
    requires IsInt32(i)
    ensures |Int32Text(i)| <= 11 && |Int32Text(i)| < FastToBufferSize
  {
    PowAdd(10, 5, 5);
    assert Pow(10, 10) == 10000000000;
    DigitsAtMost(Abs(i), 10, 10);
  }

  /** The one value whose magnitude does not fit int32 still prints correctly. */
  lemma Int32MinText()
    ensures Int32Text(Int32Min) == "-2147483648"
  {
  }

  /** How `uint32_t u = i; u = -u;` gives the magnitude of a negative int32, INT32_MIN included. */
  lemma NegatedUInt32IsMagnitude(i: int)
    requires IsInt32(i) && i < 0
    ensures (0x1_0000_0000 - i % 0x1_0000_0000) % 0x1_0000_0000 == Abs(i)
    ensures 0 < Abs(i) <= 0x8000_0000
  {
  }
}
