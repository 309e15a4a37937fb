/**
 * The decimal-only copies of the string utilities in include/strings.h.
 * The reversal loop there is the same as in source/strings.c and is
 * `Strings.ReverseStringInPlace`; the digit loop, the append bound and the
 * fixed base differ and are modelled here.
 */
module StringsHeader {
  import opened FixedPoint
  import opened CString
  import Strings

  /** One pass of the decimal do-while loop: `(i % 10) + '0'` is the lowest digit of what is left. */
  lemma DecimalStep(written: string, n: nat, digits: string)
    requires written + LeastFirst(n, 10) == digits
    ensures ('0' as int + n % 10) as char == DigitChar(n % 10)
    ensures n / 10 > 0 ==> (written + [DigitChar(n % 10)]) + LeastFirst(n / 10, 10) == digits
    ensures n / 10 == 0 ==> written + [DigitChar(n % 10)] == digits
  {
    Strings.LeastFirstStep(written, n, 10, digits);
  }

  /**
   * The do-while loop of the header's `FastUInt32ToBufferLeft`: writes the
   * decimal digits of i lowest first from buffer[pos] on.
   */
  method WriteDecimalLeastFirst(i: nat, buffer: array<char>, pos: nat) returns (end: nat)
    requires pos + |LeastFirst(i, 10)| <= buffer.Length
    modifies buffer
    ensures end == pos + |LeastFirst(i, 10)|
    ensures forall k | 0 <= k < buffer.Length ::
      buffer[k] == if pos <= k < end then LeastFirst(i, 10)[k - pos] else old(buffer[k])
  {
    ghost var digits := LeastFirst(i, 10);
    ghost var written: string := [];
    var n: nat := i;
    var more := true;
    end := pos;
    while more
      invariant end == pos + |written|
      invariant more ==> written + LeastFirst(n, 10) == digits
      invariant !more ==> written == digits
      invariant forall k | 0 <= k < buffer.Length ::
        buffer[k] == if pos <= k < end then written[k - pos] else old(buffer[k])
      decreases if more then n + 1 else 0
    {
      DecimalStep(written, n, digits);
      var character := ('0' as int + n % 10) as char;
      buffer[end] := character;
      written := written + [character];
      end := end + 1;
      n := n / 10;
      more := n > 0;
    }
  }

  /**
   * The model of the header's `FastUInt32ToBufferLeft`: the decimal
   * digits of i at buffer[pos ..], then a NUL; returns the position of the NUL.
   */
  method FastUInt32ToBufferLeft(i: nat, buffer: array<char>, pos: nat) returns (end: nat)
    requires i < 0x1_0000_0000
    requires pos + |Digits(i, 10)| < buffer.Length
    modifies buffer
    ensures end == pos + |Digits(i, 10)|
    ensures buffer[pos..end] == Digits(i, 10) && buffer[end] == Nul
    ensures buffer[..pos] == old(buffer[..pos]) && buffer[end + 1..] == old(buffer[end + 1..])
  {
    LeastFirstReversed(i, 10);
    var start := pos;
    end := WriteDecimalLeastFirst(i, buffer, start);
    buffer[end] := Nul;
    ghost var written := buffer[..];
    var _ := Strings.ReverseStringInPlace(buffer, start, end);
    Strings.ReversedDigits(old(buffer[..]), written, start, end, LeastFirst(i, 10));
  }

  /**
   * Every uint32 takes at most 10 decimal digits, so the header's
   * number conversions always fit `kFastToBufferSize`, signed ones included.
   */
  lemma DecimalFits(i: nat)
    requires i < 0x1_0000_0000
    ensures |Digits(i, 10)| <= 10 && |Digits(i, 10)| < FastToBufferSize
  {
    PowAdd(10, 5, 5);
    assert Pow(10, 10) == 10000000000;
    DigitsAtMost(i, 10, 10);
  }

  /**
   * The model of the header's `FastInt32ToBufferLeft`: an optional '-' and
   * the decimal digits of |i|, then a NUL; returns the position of the NUL.
   */
  method FastInt32ToBufferLeft(i: int, buffer: array<char>, pos: nat) returns (end: nat)
    requires IsInt32(i)
    requires pos + |Int32Text(i)| < buffer.Length
    modifies buffer
    ensures end == pos + |Int32Text(i)|
    ensures buffer[pos..end] == Int32Text(i) && buffer[end] == Nul
    ensures buffer[..pos] == old(buffer[..pos]) && buffer[end + 1..] == old(buffer[end + 1..])
  {
    var u := i % 0x1_0000_0000;
    var p := pos;
    ghost var sign := "";
    if i < 0 {
      buffer[p] := '-';
      p := p + 1;
      u := (0x1_0000_0000 - u) % 0x1_0000_0000;
      NegatedUInt32IsMagnitude(i);
      sign := "-";
    }
    assert u == Abs(i) && Int32Text(i) == sign + Digits(u, 10) && p == pos + |sign|;
    ghost var mid := buffer[..];
    end := FastUInt32ToBufferLeft(u, buffer, p);
    assert buffer[pos..p] == mid[pos..p] == sign;
    assert buffer[pos..end] == buffer[pos..p] + buffer[p..end];
  }

  /**
   * What the header's StrCatStr leaves in `main`: the old string, extended
   * by up to main_max_length - 1 characters of `toAppend`, the bound being
   * counted from the end of the old string.
   */
  function HeaderCatText(s: string, mainMaxLength: int, toAppend: string): (r: string)
  {
    s + toAppend[..Strings.Min(|toAppend|, if mainMaxLength - 1 <= 0 then 0 else mainMaxLength - 1)]
  }

  /**
   * The header bound is source/strings.c's bound moved along by the old
   * length: the two versions agree on an empty string and differ by |s| otherwise.
   */
  lemma HeaderCatTextShifted(s: string, mainMaxLength: int, toAppend: string)
    requires mainMaxLength >= 1
    ensures HeaderCatText(s, mainMaxLength, toAppend) == Strings.CatText(s, mainMaxLength + |s|, toAppend)
    ensures HeaderCatText("", mainMaxLength, toAppend) == Strings.CatText("", mainMaxLength, toAppend)
  {
  }

  /**
   * What the header's StrCatStr does promise: the old string is kept, a
   * prefix of `toAppend` follows it, and at most main_max_length - 1
   * characters are appended, all of them when they fit.
   */
  lemma HeaderCatTextAppends(s: string, mainMaxLength: int, toAppend: string)
    requires mainMaxLength >= 1
    ensures HeaderCatText(s, mainMaxLength, toAppend)[..|s|] == s
    ensures HeaderCatText(s, mainMaxLength, toAppend)[|s|..] <= toAppend
    ensures |HeaderCatText(s, mainMaxLength, toAppend)| <= |s| + mainMaxLength - 1
    ensures |toAppend| < mainMaxLength ==> HeaderCatText(s, mainMaxLength, toAppend) == s + toAppend
  {
  }

  /**
   * The header's bound lets the string outgrow main_max_length: "abc" in a
   * buffer of main_max_length 4 becomes the 6-character "abcxyz", which
   * needs 7 bytes.
   */
  lemma HeaderCatTextOverflows()
    ensures |"abc"| < 4 && |HeaderCatText("abc", 4, "xyz")| >= 4
    ensures HeaderCatText("abc", 4, "xyz") == "abcxyz"
  {
  }

  /** The model of the header's `StrCatStr`; `s` and `toAppendText` name the strings the buffers hold. */
  method StrCatStr(main: array<char>, mainMaxLength: int, toAppend: array<char>,
                   ghost s: string, ghost toAppendText: string)
    requires main != toAppend
    requires Holds(main[..], s) && Holds(toAppend[..], toAppendText)
    requires |HeaderCatText(s, mainMaxLength, toAppendText)| < main.Length
    modifies main
    ensures var r := HeaderCatText(s, mainMaxLength, toAppendText);
      Holds(main[..], r) && forall k | |r| < k < main.Length :: main[k] == old(main[k])
  {
    ghost var r := HeaderCatText(s, mainMaxLength, toAppendText);
    var current := 0;
    while main[current] != Nul
      invariant 0 <= current <= |s|
      decreases |s| - current
    {
      assert main[current] == s[current];
      current := current + 1;
    }
    var currentEnd := current + (mainMaxLength - 1);
    var t := 0;
    while toAppend[t] != Nul && current < currentEnd
      invariant 0 <= t <= |toAppendText| && current == |s| + t
      invariant t == 0 || current <= currentEnd
      invariant forall k | 0 <= k < main.Length ::
        main[k] == if |s| <= k < current then toAppendText[k - |s|] else old(main[k])
      decreases |toAppendText| - t
    {
      assert toAppend[t] == toAppendText[t];
      main[current] := toAppend[t];
      current := current + 1;
      t := t + 1;
    }
    assert r == s + toAppendText[..t];
    main[current] := Nul;
    assert main[..current] == r;
  }

  /** The model of the header's `StrCatInt32`: the decimal text of `number` appended through a 32-char scratch buffer. */
  method StrCatInt32(main: array<char>, mainMaxLength: int, number: int, ghost s: string)
    requires IsInt32(number)
    requires Holds(main[..], s)
    requires |HeaderCatText(s, mainMaxLength, Int32Text(number))| < main.Length
    modifies main
    ensures var r := HeaderCatText(s, mainMaxLength, Int32Text(number));
      Holds(main[..], r) && forall k | |r| < k < main.Length :: main[k] == old(main[k])
  {
    var numberString := new char[FastToBufferSize];
    Int32TextFits(number);
    var end := FastInt32ToBufferLeft(number, numberString, 0);
    StrCatStr(main, mainMaxLength, numberString, s, Int32Text(number));
  }

  /** The model of the header's `StrCatUInt32`: the decimal digits of `number`, which always fit the scratch buffer. */
  method StrCatUInt32(main: array<char>, mainMaxLength: int, number: nat, ghost s: string)
    requires number < 0x1_0000_0000
    requires Holds(main[..], s)
    requires |HeaderCatText(s, mainMaxLength, Digits(number, 10))| < main.Length
    modifies main
    ensures var r := HeaderCatText(s, mainMaxLength, Digits(number, 10));
      Holds(main[..], r) && forall k | |r| < k < main.Length :: main[k] == old(main[k])
  {
    var numberString := new char[FastToBufferSize];
    DecimalFits(number);
    var end := FastUInt32ToBufferLeft(number, numberString, 0);
    StrCatStr(main, mainMaxLength, numberString, s, Digits(number, 10));
  }
}
