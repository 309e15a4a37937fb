/**
 * The interrupt-side logic of examples/adc_dma/adc_dma_main.c: the three
 * global counters, their reset in `OnReset` and the DMA channel 1 handler.
 */
module AdcDma {
  import opened Registers
  import opened DmaDispatch
  import opened FixedPoint
  import Startup

  /**
   * What an uninitialised int32_t global holds when `OnReset` starts: it
   * lives in .bss, which the startup code fills with 0xDEADBEEF.
   */
  const BssCounter: int := Int32OfWord(Startup.BssFill)

  /** That value is -559038737, not 0, which is why `OnReset` zeroes the counters. */
  lemma BssCounterValue()
    ensures BssCounter == -559038737 && BssCounter != 0
  {
  }

  /** The globals g_error_count, g_half_count and g_complete_count. */
  class AdcDmaCounters {
    var errorCount: int
    var halfCount: int
    var completeCount: int

    function Counts(): Counters
      reads this
    {
      Counters(errorCount, halfCount, completeCount)
    }

    /** The counters as the reset path leaves them, before `OnReset` runs. */
    constructor ()
      ensures Counts() == Counters(BssCounter, BssCounter, BssCounter)
    {
      errorCount, halfCount, completeCount := BssCounter, BssCounter, BssCounter;
    }

    /** The counter reset that opens `OnReset`; the peripheral setup after it is not modelled. */
    method OnReset()
      modifies this
      ensures Counts() == Counters(0, 0, 0)
    {
      errorCount := 0;
      halfCount := 0;
      completeCount := 0;
    }

    /**
     * The model of `OnDma1Channel1Interrupt`: bumps the counter of the
     * pending event and acknowledges it in IFCR, or does nothing.
     */
    method OnDma1Channel1Interrupt(dma: Dma)
      requires CanCount(Counts(), Pending(dma.isr))
      modifies this, dma
      ensures Counts() == Bump(old(Counts()), Pending(old(dma.isr)))
      ensures dma.ifcr == old(dma.ifcr) | ClearBits(Pending(old(dma.isr)))
      ensures dma.isr == old(dma.isr)
    {
      if dma.isr & IsrTeif1 != 0 {
        errorCount := errorCount + 1;
        dma.ifcr := dma.ifcr | IfcrCteif1;
        return;
      }
      if dma.isr & IsrHtif1 != 0 {
        halfCount := halfCount + 1;
        dma.ifcr := dma.ifcr | IfcrChtif1;
        return;
      }
      if dma.isr & IsrTcif1 != 0 {
        completeCount := completeCount + 1;
        dma.ifcr := dma.ifcr | IfcrCtcif1;
        return;
      }
    }
  }
}
