/**
 * The string utilities of source/strings.c, over char buffers: a pointer
 * into a buffer is an index into an `array<char>`, and a string is what
 * the buffer holds before its first NUL.
 */
module Strings {
  import opened FixedPoint
  import opened CString

  /** buffer contents s with the range [start, end) reversed and everything else kept. */
  function ReversedRange(s: seq<char>, start: nat, end: nat): (r: seq<char>)
    requires start <= end <= |s|
    ensures |r| == |s|
  {
    seq(|s|, k requires 0 <= k < |s| => if start <= k < end then s[start + end - 1 - k] else s[k])
  }

  /** ReversedRange reverses the range as a string and leaves both sides of it alone. */
  lemma ReversedRangeSlices(s: seq<char>, start: nat, end: nat)
    requires start <= end <= |s|
    ensures ReversedRange(s, start, end)[start..end] == Reverse(s[start..end])
    ensures ReversedRange(s, start, end)[..start] == s[..start]
    ensures ReversedRange(s, start, end)[end..] == s[end..]
  {
    ReverseByIndex(s[start..end], ReversedRange(s, start, end)[start..end]);
  }

  /**
   * Position k of the buffer after n passes of the swap loop of
   * ReverseStringInPlace: the n outermost pairs of [start, end) are exchanged.
   */
  function PartlyReversed(s: seq<char>, start: nat, end: nat, n: nat, k: nat): char
    requires start <= end <= |s| && 2 * n <= end - start + 1 && k < |s|
  {
    if start <= k < start + n || end - n <= k < end then s[start + end - 1 - k] else s[k]
  }

  /** The model of `ReverseStringInPlace`: reverses buffer[start .. end) and returns start. */
  method ReverseStringInPlace(buffer: array<char>, start: nat, end: nat) returns (r: nat)
    requires start <= end <= buffer.Length
    modifies buffer
    ensures r == start
    ensures buffer[..] == ReversedRange(old(buffer[..]), start, end)
  {
    ghost var s := buffer[..];
    var p1: int := start;
    var p2: int := end - 1;
    while p1 < p2
      invariant start <= p1 && p1 + p2 == start + end - 1 && p1 <= p2 + 1
      invariant forall k | 0 <= k < buffer.Length :: buffer[k] == PartlyReversed(s, start, end, p1 - start, k)
    {
      var tmp := buffer[p1];
      buffer[p1] := buffer[p2];
      buffer[p2] := tmp;
      p1 := p1 + 1;
      p2 := p2 - 1;
    }
    assert forall k | 0 <= k < buffer.Length :: buffer[..][k] == ReversedRange(s, start, end)[k];
    r := start;
  }

  /** One pass of the do-while loop of `FastUInt32ToBufferLeft` emits the lowest digit of what is left. */
  lemma LeastFirstStep(written: string, n: nat, base: int, digits: string)
    requires IsBase(base) && written + LeastFirst(n, base) == digits
    ensures n / base > 0 ==> (written + [DigitChar(n % base)]) + LeastFirst(n / base, base) == digits
    ensures n / base == 0 ==> written + [DigitChar(n % base)] == digits
  {
    DivideByBase(n, base);
    var digit := [DigitChar(n % base)];
    var rest := if n / base > 0 then LeastFirst(n / base, base) else [];
    assert LeastFirst(n, base) == digit + rest;
    assert written + (digit + rest) == (written + digit) + rest;
  }

  /** Dividing by the base leaves a smaller quotient and a remainder that is a digit. */
  lemma QuotientShrinks(n: nat, base: int)
    requires IsBase(base)
    ensures 0 <= n / base && (n > 0 ==> n / base < n) && 0 <= n % base < base
  {
    DivideByBase(n, base);
  }

  /** The character `FastUInt32ToBufferLeft` writes for a digit: '0' .. '9', then 'a' on. */
  method DigitCharacter(digit: nat) returns (character: char)
    requires digit < 40
    ensures character == DigitChar(digit)
  {
    if digit < 10 {
      character := ('0' as int + digit) as char;
    } else {
      character := ('a' as int + (digit - 10)) as char;
    }
  }

  /**
   * The do-while loop of `FastUInt32ToBufferLeft`: writes the digits of i
   * lowest first from buffer[pos] on and returns the position after them.
   */
  method WriteLeastFirst(i: nat, buffer: array<char>, pos: nat, base: int) returns (end: nat)
    requires IsBase(base) && pos + |LeastFirst(i, base)| <= buffer.Length
    modifies buffer
    ensures end == pos + |LeastFirst(i, base)|
    ensures forall k | 0 <= k < buffer.Length ::
      buffer[k] == if pos <= k < end then LeastFirst(i, base)[k - pos] else old(buffer[k])
  {
    ghost var digits := LeastFirst(i, base);
    ghost var written: string := [];
    var n: nat := i;
    var more := true;
    end := pos;
    while more
      invariant end == pos + |written|
      invariant more ==> written + LeastFirst(n, base) == digits
      invariant !more ==> written == digits
      invariant forall k | 0 <= k < buffer.Length ::
        buffer[k] == if pos <= k < end then written[k - pos] else old(buffer[k])
      decreases if more then n + 1 else 0
    {
      QuotientShrinks(n, base);
      LeastFirstStep(written, n, base, digits);
      var character := DigitCharacter(n % base);
      buffer[end] := character;
      written := written + [character];
      end := end + 1;
      n := n / base;
      more := n > 0;
    }
  }

  /**
   * What the last two steps of `FastUInt32ToBufferLeft` leave: `written`
   * holds digits lowest first at [pos, end) and a NUL at end, and
   * reversing that range puts the digits in reading order.
   */
  lemma ReversedDigits(o: seq<char>, written: seq<char>, pos: nat, end: nat, digits: string)
    requires |written| == |o| && pos + |digits| == end < |o|
    requires forall k | 0 <= k < |o| ::
      written[k] == if pos <= k < end then digits[k - pos] else if k == end then Nul else o[k]
    ensures ReversedRange(written, pos, end)[pos..end] == Reverse(digits)
    ensures ReversedRange(written, pos, end)[end] == Nul
    ensures ReversedRange(written, pos, end)[..pos] == o[..pos]
    ensures ReversedRange(written, pos, end)[end + 1..] == o[end + 1..]
  {
    ReversedRangeSlices(written, pos, end);
    assert written[pos..end] == digits;
  }

  /**
   * The model of `FastUInt32ToBufferLeft`: writes the digits of i in
   * `base` at buffer[pos ..], then a NUL, and returns the position of
   * that NUL.
   */
  method FastUInt32ToBufferLeft(i: nat, buffer: array<char>, pos: nat, base: int) returns (end: nat)
    requires i < 0x1_0000_0000 && IsBase(base)
    requires pos + |Digits(i, base)| < buffer.Length
    modifies buffer
    ensures end == pos + |Digits(i, base)|
    ensures buffer[pos..end] == Digits(i, base) && buffer[end] == Nul
    ensures buffer[..pos] == old(buffer[..pos]) && buffer[end + 1..] == old(buffer[end + 1..])
  {
    LeastFirstReversed(i, base);
    var start := pos;
    end := WriteLeastFirst(i, buffer, start, base);
    buffer[end] := Nul;
    ghost var written := buffer[..];
    var _ := ReverseStringInPlace(buffer, start, end);
    ReversedDigits(old(buffer[..]), written, start, end, LeastFirst(i, base));
  }

  /**
   * The model of `FastInt32ToBufferLeft`: an optional '-' and the decimal
   * digits of |i|, then a NUL; returns the position of the NUL.
   */
  method FastInt32ToBufferLeft(i: int, buffer: array<char>, pos: nat) returns (end: nat)
    requires IsInt32(i)
    requires pos + |Int32Text(i)| < buffer.Length
    modifies buffer
    ensures end == pos + |Int32Text(i)|
    ensures buffer[pos..end] == Int32Text(i) && buffer[end] == Nul
    ensures buffer[..pos] == old(buffer[..pos]) && buffer[end + 1..] == old(buffer[end + 1..])
  {
    var u := i % 0x1_0000_0000;
    var p := pos;
    ghost var sign := "";
    if i < 0 {
      buffer[p] := '-';
      p := p + 1;
      u := (0x1_0000_0000 - u) % 0x1_0000_0000;
      NegatedUInt32IsMagnitude(i);
      sign := "-";
    }
    assert u == Abs(i) && Int32Text(i) == sign + Digits(u, 10) && p == pos + |sign|;
    ghost var mid := buffer[..];
    end := FastUInt32ToBufferLeft(u, buffer, p, 10);
    assert buffer[pos..p] == mid[pos..p] == sign;
    assert buffer[pos..end] == buffer[pos..p] + buffer[p..end];
  }

  /**
   * What StrCatStr leaves in `main`: the old string, extended by as much
   * of `toAppend` as fits before position main_max_length - 1 of the
   * buffer.
   */
  function CatText(s: string, mainMaxLength: int, toAppend: string): (r: string)
  {
    var room := mainMaxLength - 1 - |s|;
    if room <= 0 then s else s + toAppend[..Min(|toAppend|, room)]
  }

  function Min(a: int, b: int): int {
    if a <= b then a else b
  }

  /**
   * The promise behind main_max_length: a string that fitted the buffer
   * (NUL included) still fits after the append, and the appended part is a
   * prefix of `toAppend`.
   */
  lemma CatTextFits(s: string, mainMaxLength: int, toAppend: string)
    requires |s| < mainMaxLength
    ensures |CatText(s, mainMaxLength, toAppend)| < mainMaxLength
    ensures |CatText(s, mainMaxLength, toAppend)| >= |s|
    ensures CatText(s, mainMaxLength, toAppend)[..|s|] == s
    ensures CatText(s, mainMaxLength, toAppend)[|s|..] <= toAppend
  {
  }

  /** As much as possible is appended: all of it when it fits, otherwise up to the last byte. */
  lemma CatTextMaximal(s: string, mainMaxLength: int, toAppend: string)
    requires |s| < mainMaxLength
    ensures |s| + |toAppend| < mainMaxLength ==> CatText(s, mainMaxLength, toAppend) == s + toAppend
    ensures |s| + |toAppend| >= mainMaxLength ==> |CatText(s, mainMaxLength, toAppend)| == mainMaxLength - 1
  {
  }

  /**
   * The model of `StrCatStr`; `s` and `toAppendText` name the strings the
   * two buffers hold.
   */
  method StrCatStr(main: array<char>, mainMaxLength: int, toAppend: array<char>,
                   ghost s: string, ghost toAppendText: string)
    requires main != toAppend
    requires Holds(main[..], s) && Holds(toAppend[..], toAppendText)
    requires |CatText(s, mainMaxLength, toAppendText)| < main.Length
    modifies main
    ensures var r := CatText(s, mainMaxLength, toAppendText);
      Holds(main[..], r) && forall k | |r| < k < main.Length :: main[k] == old(main[k])
  {
    ghost var r := CatText(s, mainMaxLength, toAppendText);
    var current := 0;
    while main[current] != Nul
      invariant 0 <= current <= |s|
      decreases |s| - current
    {
      assert main[current] == s[current];
      current := current + 1;
    }
    var currentEnd := mainMaxLength - 1;
    var t := 0;
    while toAppend[t] != Nul && current < currentEnd
      invariant 0 <= t <= |toAppendText| && current == |s| + t
      invariant t == 0 || current <= currentEnd
      invariant forall k | 0 <= k < main.Length ::
        main[k] == if |s| <= k < current then toAppendText[k - |s|] else old(main[k])
      decreases |toAppendText| - t
    {
      assert toAppend[t] == toAppendText[t];
      main[current] := toAppend[t];
      current := current + 1;
      t := t + 1;
    }
    CatTextStops(s, mainMaxLength, toAppendText, t);
    main[current] := Nul;
    assert main[..current] == r;
  }

  /** Where the copy loop of StrCatStr stops is where CatText ends. */
  lemma CatTextStops(s: string, mainMaxLength: int, toAppend: string, t: nat)
    requires t <= |toAppend| && (t == |toAppend| || |s| + t >= mainMaxLength - 1)
    requires t == 0 || |s| + t <= mainMaxLength - 1
    ensures CatText(s, mainMaxLength, toAppend) == s + toAppend[..t]
  {
  }

  /** The model of `StrCatInt32`: formats `number` into a 32-char scratch buffer and appends it. */
  method StrCatInt32(main: array<char>, mainMaxLength: int, number: int, ghost s: string)
    requires IsInt32(number)
    requires Holds(main[..], s)
    requires |CatText(s, mainMaxLength, Int32Text(number))| < main.Length
    modifies main
    ensures var r := CatText(s, mainMaxLength, Int32Text(number));
      Holds(main[..], r) && forall k | |r| < k < main.Length :: main[k] == old(main[k])
  {
    var numberString := new char[FastToBufferSize];
    Int32TextFits(number);
    var end := FastInt32ToBufferLeft(number, numberString, 0);
    StrCatStr(main, mainMaxLength, numberString, s, Int32Text(number));
  }

  /**
   * The model of `StrCatUInt32`. The 32-char scratch buffer holds the
   * digits and their NUL exactly when the base is not 2 or bit 31 is clear.
   */
  method StrCatUInt32(main: array<char>, mainMaxLength: int, number: nat, base: int, ghost s: string)
    requires number < 0x1_0000_0000 && IsBase(base)
    requires base >= 3 || number < 0x8000_0000
    requires Holds(main[..], s)
    requires |CatText(s, mainMaxLength, Digits(number, base))| < main.Length
    modifies main
    ensures var r := CatText(s, mainMaxLength, Digits(number, base));
      Holds(main[..], r) && forall k | |r| < k < main.Length :: main[k] == old(main[k])
  {
    var numberString := new char[FastToBufferSize];
    UInt32DigitsFit(number, base);
    var end := FastUInt32ToBufferLeft(number, numberString, 0, base);
    StrCatStr(main, mainMaxLength, numberString, s, Digits(number, base));
  }

  /**
   * `StrCatUInt32` with a scratch buffer one char longer than
   * `kFastToBufferSize`: every uint32 in every base then fits with its
   * NUL, and the append needs no condition on the base or the top bit.
   */
  method StrCatUInt32WideScratch(main: array<char>, mainMaxLength: int, number: nat, base: int, ghost s: string)
    requires number < 0x1_0000_0000 && IsBase(base)
    requires Holds(main[..], s)
    requires |CatText(s, mainMaxLength, Digits(number, base))| < main.Length
    modifies main
    ensures var r := CatText(s, mainMaxLength, Digits(number, base));
      Holds(main[..], r) && forall k | |r| < k < main.Length :: main[k] == old(main[k])
  {
    var numberString := new char[FastToBufferSize + 1];
    UInt32DigitsAtMost32(number, base);
    var end := FastUInt32ToBufferLeft(number, numberString, 0, base);
    StrCatStr(main, mainMaxLength, numberString, s, Digits(number, base));
  }

  /** What StrCpy leaves in `main`: as much of `source` as fits before position main_max_length - 1. */
  function CopyText(mainMaxLength: int, source: string): (r: string)
  {
    source[..Min(|source|, if mainMaxLength - 1 <= 0 then 0 else mainMaxLength - 1)]
  }

  /** A copy is a prefix of the source, fits in main_max_length with its NUL, and is complete when it can be. */
  lemma CopyTextFits(mainMaxLength: int, source: string)
    requires mainMaxLength >= 1
    ensures CopyText(mainMaxLength, source) <= source
    ensures |CopyText(mainMaxLength, source)| < mainMaxLength
    ensures |source| < mainMaxLength ==> CopyText(mainMaxLength, source) == source
  {
  }

  /** The model of `StrCpy`; `sourceText` names the string `source` holds. */
  method StrCpy(main: array<char>, mainMaxLength: int, source: array<char>, ghost sourceText: string)
    requires main != source
    requires Holds(source[..], sourceText)
    requires |CopyText(mainMaxLength, sourceText)| < main.Length
    modifies main
    ensures var r := CopyText(mainMaxLength, sourceText);
      Holds(main[..], r) && forall k | |r| < k < main.Length :: main[k] == old(main[k])
  {
    ghost var r := CopyText(mainMaxLength, sourceText);
    var current := 0;
    var currentEnd := mainMaxLength - 1;
    var t := 0;
    while source[t] != Nul && current < currentEnd
      invariant 0 <= t <= |sourceText| && current == t
      invariant t == 0 || current <= currentEnd
      invariant forall k | 0 <= k < main.Length :: main[k] == if k < current then sourceText[k] else old(main[k])
      decreases |sourceText| - t
    {
      assert source[t] == sourceText[t];
      main[current] := source[t];
      current := current + 1;
      t := t + 1;
    }
    main[current] := Nul;
    assert main[..current] == r;
  }
}
