/**
 * examples/led_from_mic/led_from_mic_main.c: a microphone is sampled into
 * a 1024-sample DMA buffer; each half-transfer and transfer-complete
 * interrupt turns the half just filled into a "volume" (the mean absolute
 * deviation of the samples), and the main loop lights the LED above a
 * threshold.
 */
module LedFromMic {
  import opened FixedPoint
  import opened Registers
  import opened DmaDispatch
  import Led
  import Layout

  /** A sample of the uint16_t DMA buffer. */
  type uint16 = x: int | 0 <= x < 0x1_0000

  const DmaBufferSize: nat := 1024
  const HalfBufferSize: nat := DmaBufferSize / 2

  /** The main loop lights the LED when the volume is above this. */
  const VolumeThreshold: int := 10

  // ---------------------------------------------------------------------
  // The volume statistic

  /** The sum of the samples, which `total` accumulates. */
  function Sum(s: seq<uint16>): nat
  {
    if |s| == 0 then 0 else Sum(s[..|s| - 1]) + s[|s| - 1]
  }

  /** `mean`: the int32 quotient total / count, truncated toward zero. */
  function Mean(s: seq<uint16>): int
    requires |s| > 0
  {
    TruncDiv(Sum(s), |s|)
  }

  /** The sum of |sample - mean|, which `total_volume` accumulates. */
  function AbsDeviation(s: seq<uint16>, mean: int): nat
  {
    if |s| == 0 then 0 else AbsDeviation(s[..|s| - 1], mean) + Abs(s[|s| - 1] - mean)
  }

  /** `g_current_volume`: the unsigned quotient total_volume / count. */
  function Volume(s: seq<uint16>): nat
    requires |s| > 0
  {
    AbsDeviation(s, Mean(s)) / |s|
  }

  /** One more sample extends both running sums by that sample's term. */
  lemma SumsExtend(s: seq<uint16>, start: nat, current: nat, mean: int)
    requires start <= current < |s|
    ensures Sum(s[start..current + 1]) == Sum(s[start..current]) + s[current]
    ensures AbsDeviation(s[start..current + 1], mean) == AbsDeviation(s[start..current], mean) + Abs(s[current] - mean)
  {
    assert s[start..current + 1][..current - start] == s[start..current];
  }

  /** Running sums never exceed the whole range's: the accumulators grow monotonically. */
  lemma {:induction false} PrefixSumsBounded(s: seq<uint16>, i: nat, mean: int)
    requires i <= |s|
    ensures Sum(s[..i]) <= Sum(s)
    ensures AbsDeviation(s[..i], mean) <= AbsDeviation(s, mean)
    decreases |s| - i
  {
    if i < |s| {
      PrefixSumsBounded(s[..|s| - 1], i, mean);
      assert s[..|s| - 1][..i] == s[..i];
    } else {
      assert s[..i] == s;
    }
  }

  /** The mean is the floor of the average: count * mean never exceeds the sum. */
  lemma MeanTimesCount(s: seq<uint16>)
    requires |s| > 0
    ensures 0 <= Mean(s) && |s| * Mean(s) <= Sum(s)
  {
  }

  /** Σ |x - m| never exceeds Σ x + count * m for samples and m that are not negative. */
  lemma {:induction false} DeviationAtMost(s: seq<uint16>, mean: int)
    requires mean >= 0
    ensures AbsDeviation(s, mean) <= Sum(s) + |s| * mean
  {
    if |s| > 0 {
      DeviationAtMost(s[..|s| - 1], mean);
      assert |s| * mean == (|s| - 1) * mean + mean;
    }
  }

  /**
   * Under the int32 bound on the sum, the uint32 `total_volume` never
   * wraps: it stays below 2 * INT32_MAX + 1.
   */
  lemma DeviationFitsUInt32(s: seq<uint16>)
    requires |s| > 0 && Sum(s) <= Int32Max
    ensures AbsDeviation(s, Mean(s)) < 0x1_0000_0000
  {
    MeanTimesCount(s);
    DeviationAtMost(s, Mean(s));
  }

  /** Every sample is at most 65535, so the sum is at most 65535 per sample. */
  lemma {:induction false} SumAtMost(s: seq<uint16>)
    ensures Sum(s) <= 0xffff * |s|
  {
    if |s| > 0 {
      SumAtMost(s[..|s| - 1]);
    }
  }

  /** Each |x - m| with x and m in [0, 65535] is at most 65535. */
  lemma {:induction false} DeviationPerSampleAtMost(s: seq<uint16>, mean: int)
    requires 0 <= mean <= 0xffff
    ensures AbsDeviation(s, mean) <= 0xffff * |s|
  {
    if |s| > 0 {
      DeviationPerSampleAtMost(s[..|s| - 1], mean);
    }
  }

  /** a < c * n gives a / n < c. */
  lemma QuotientBelow(a: nat, n: nat, c: nat)
    requires n > 0 && a < c * n
    ensures a / n < c
  {
    Layout.MulNonneg(a / n, n);
    assert (a / n) * n <= a;
  }

  /** The volume, like the mean, stays in the uint16 range, so the int32 `g_current_volume` holds it. */
  lemma VolumeAtMost(s: seq<uint16>)
    requires |s| > 0
    ensures 0 <= Mean(s) <= 0xffff && Volume(s) <= 0xffff
  {
    SumAtMost(s);
    QuotientBelow(Sum(s), |s|, 0x1_0000);
    DeviationPerSampleAtMost(s, Mean(s));
    QuotientBelow(AbsDeviation(s, Mean(s)), |s|, 0x1_0000);
  }

  /** n identical samples c sum to n * c. */
  lemma {:induction false} ConstantSum(s: seq<uint16>, c: uint16)
    requires forall k | 0 <= k < |s| :: s[k] == c
    ensures Sum(s) == |s| * c
  {
    if |s| > 0 {
      ConstantSum(s[..|s| - 1], c);
      assert |s| * c == (|s| - 1) * c + c;
    }
  }

  /** Identical samples do not deviate from their own value. */
  lemma {:induction false} ConstantDeviation(s: seq<uint16>, c: uint16)
    requires forall k | 0 <= k < |s| :: s[k] == c
    ensures AbsDeviation(s, c) == 0
  {
    if |s| > 0 {
      ConstantDeviation(s[..|s| - 1], c);
    }
  }

  /** A silent (constant) stretch of samples has volume 0, whatever its level. */
  lemma ConstantSegmentSilent(s: seq<uint16>)
    requires |s| > 0 && forall k | 0 <= k < |s| :: s[k] == s[0]
    ensures Mean(s) == s[0] && Volume(s) == 0
  {
    ConstantSum(s, s[0]);
    ConstantDeviation(s, s[0]);
    Layout.DivModUnique(|s| * s[0], |s|, s[0], 0);
  }

  /** A half buffer of samples always sums within int32: ProcessDmaBuffer needs no further bound for the handler's ranges. */
  lemma HalfBufferSumFits(s: seq<uint16>)
    requires |s| <= HalfBufferSize
    ensures Sum(s) <= Int32Max
  {
    SumAtMost(s);
  }

  /** The BSRR word the main loop stores for a volume: LedOn's above the threshold, LedOff's otherwise. */
  function LedWord(volume: int): (w: bv32)
    ensures w == Led.LedOnWord <==> volume > VolumeThreshold
    ensures w == Led.LedOffWord <==> volume <= VolumeThreshold
  {
    if volume > VolumeThreshold then Led.LedOnWord else Led.LedOffWord
  }

  // ---------------------------------------------------------------------
  // The program's globals and code

  /** The globals g_error_count, g_half_count, g_complete_count, g_current_volume and g_dma_buffer. */
  class LedFromMicState {
    var errorCount: int
    var halfCount: int
    var completeCount: int
    var currentVolume: int
    const dmaBuffer: array<uint16>

    function Counts(): Counters
      reads this
    {
      Counters(errorCount, halfCount, completeCount)
    }

    constructor ()
      ensures dmaBuffer.Length == DmaBufferSize && fresh(dmaBuffer)
    {
      dmaBuffer := new uint16[DmaBufferSize];
    }

    /** The opening of `main`: the four globals are zeroed before anything else runs. */
    method InitGlobals()
      modifies this
      ensures Counts() == Counters(0, 0, 0) && currentVolume == 0
    {
      errorCount := 0;
      halfCount := 0;
      completeCount := 0;
      currentVolume := 0;
    }

    /** One pass of the endless loop of `main`: LedOn above the threshold, LedOff otherwise. */
    method MainLoopStep(gpioc: Gpio)
      modifies gpioc
      ensures gpioc.bsrr == LedWord(currentVolume)
      ensures gpioc.crl == old(gpioc.crl) && gpioc.crh == old(gpioc.crh) && gpioc.odr == old(gpioc.odr)
    {
      if currentVolume > VolumeThreshold {
        Led.LedOn(gpioc);
      } else {
        Led.LedOff(gpioc);
      }
    }

    /** The first loop of `ProcessDmaBuffer`: the int32 `total` of buffer[startIndex .. endIndex). */
    static method SampleTotal(buffer: array<uint16>, startIndex: nat, endIndex: nat) returns (total: int)
      requires startIndex <= endIndex <= buffer.Length
      requires Sum(buffer[startIndex..endIndex]) <= Int32Max
      ensures total == Sum(buffer[startIndex..endIndex]) && IsInt32(total)
    {
      ghost var range := buffer[startIndex..endIndex];
      var current := startIndex;
      total := 0;
      while current != endIndex
        invariant startIndex <= current <= endIndex
        invariant total == Sum(range[..current - startIndex])
      {
        SumsExtend(range, 0, current - startIndex, 0);
        PrefixSumsBounded(range, current + 1 - startIndex, 0);
        assert buffer[current] == range[current - startIndex];
        total := total + buffer[current];
        assert IsInt32(total);
        current := current + 1;
      }
      assert range[..current - startIndex] == range;
    }

    /**
     * The second loop of `ProcessDmaBuffer`: the uint32 `total_volume`, the
     * sum of |sample - mean|, which cannot wrap while it stays below 2^32.
     */
    static method DeviationTotal(buffer: array<uint16>, startIndex: nat, endIndex: nat, mean: int)
      returns (totalVolume: int)
      requires startIndex <= endIndex <= buffer.Length
      requires AbsDeviation(buffer[startIndex..endIndex], mean) < 0x1_0000_0000
      ensures totalVolume == AbsDeviation(buffer[startIndex..endIndex], mean)
    {
      ghost var range := buffer[startIndex..endIndex];
      totalVolume := 0;
      var current := startIndex;
      while current != endIndex
        invariant startIndex <= current <= endIndex
        invariant totalVolume == AbsDeviation(range[..current - startIndex], mean)
      {
        SumsExtend(range, 0, current - startIndex, mean);
        PrefixSumsBounded(range, current + 1 - startIndex, mean);
        assert buffer[current] == range[current - startIndex];
        var currentValue := buffer[current];
        var delta := currentValue - mean;
        var absDelta: int;
        if delta < 0 {
          absDelta := -delta;
        } else {
          absDelta := delta;
        }
        assert totalVolume + absDelta < 0x1_0000_0000;
        Layout.DivModUnique(totalVolume + absDelta, 0x1_0000_0000, 0, totalVolume + absDelta);
        totalVolume := (totalVolume + absDelta) % 0x1_0000_0000;
        current := current + 1;
      }
      assert range[..current - startIndex] == range;
    }

    /**
     * The model of `ProcessDmaBuffer`: reads buffer[startIndex .. endIndex)
     * and nothing else, and sets only g_current_volume. The empty range
     * divides by zero in the source and is excluded.
     */
    method ProcessDmaBuffer(buffer: array<uint16>, startIndex: nat, endIndex: nat)
      requires startIndex < endIndex <= buffer.Length
      requires Sum(buffer[startIndex..endIndex]) <= Int32Max
      modifies this
      ensures currentVolume == Volume(buffer[startIndex..endIndex])
      ensures Counts() == old(Counts())
    {
      var total := SampleTotal(buffer, startIndex, endIndex);
      var count := endIndex - startIndex;
      var mean := TruncDiv(total, count);
      DeviationFitsUInt32(buffer[startIndex..endIndex]);
      var totalVolume := DeviationTotal(buffer, startIndex, endIndex, mean);
      currentVolume := totalVolume / count;
    }

    /**
     * The model of `OnDma1Channel1Interrupt`: bumps the pending event's
     * counter, acknowledges it, and recomputes the volume from the half of
     * the buffer the event says is full.
     */
    method OnDma1Channel1Interrupt(dma: Dma)
      requires dmaBuffer.Length == DmaBufferSize
      requires CanCount(Counts(), Pending(dma.isr))
      modifies this, dma
      ensures Counts() == Bump(old(Counts()), Pending(old(dma.isr)))
      ensures dma.ifcr == old(dma.ifcr) | ClearBits(Pending(old(dma.isr))) && dma.isr == old(dma.isr)
      ensures currentVolume == match Pending(old(dma.isr))
        case HalfTransfer => Volume(dmaBuffer[..HalfBufferSize])
        case TransferComplete => Volume(dmaBuffer[HalfBufferSize..])
        case _ => old(currentVolume)
    {
      if dma.isr & IsrTeif1 != 0 {
        errorCount := errorCount + 1;
        dma.ifcr := dma.ifcr | IfcrCteif1;
        return;
      }
      if dma.isr & IsrHtif1 != 0 {
        halfCount := halfCount + 1;
        dma.ifcr := dma.ifcr | IfcrChtif1;
        HalfBufferSumFits(dmaBuffer[0..DmaBufferSize / 2]);
        ProcessDmaBuffer(dmaBuffer, 0, DmaBufferSize / 2);
        assert dmaBuffer[0..DmaBufferSize / 2] == dmaBuffer[..HalfBufferSize];
        return;
      }
      if dma.isr & IsrTcif1 != 0 {
        completeCount := completeCount + 1;
        dma.ifcr := dma.ifcr | IfcrCtcif1;
        HalfBufferSumFits(dmaBuffer[DmaBufferSize / 2..DmaBufferSize]);
        ProcessDmaBuffer(dmaBuffer, DmaBufferSize / 2, DmaBufferSize);
        assert dmaBuffer[DmaBufferSize / 2..DmaBufferSize] == dmaBuffer[HalfBufferSize..];
        return;
      }
    }
  }
}
