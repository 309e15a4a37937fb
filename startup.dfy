/**
 * source/startup.c: the reset path that copies initialised data from flash
 * and fills the uninitialised data with 0xDEADBEEF, the HardFault
 * diagnostics, and the interrupt vector table. RAM and flash are arrays of
 * 32-bit words; the linker-script symbols are word indices into them.
 */
module Startup {
  import opened Registers

  /** The word `_zero_initialize_bss_data` stores: a marker, deliberately not 0. */
  const BssFill: bv32 := 0xDEAD_BEEF

  /** The linker-script symbols, as word indices: `_ld_data_load_source` into flash, the rest into RAM. */
  datatype LinkerLayout = LinkerLayout(
    dataSource: nat, dataStart: nat, dataStop: nat, bssStart: nat, bssStop: nat)

  /**
   * What the linker script guarantees: each region ends at or after it
   * starts (otherwise the `dest != stop` loops would run off the end of
   * memory), and the regions lie inside the memories.
   */
  predicate Fits(layout: LinkerLayout, ramLength: nat, flashLength: nat) {
    && layout.dataStart <= layout.dataStop <= ramLength
    && layout.dataSource + (layout.dataStop - layout.dataStart) <= flashLength
    && layout.bssStart <= layout.bssStop <= ramLength
  }

  // ---------------------------------------------------------------------
  // The reset path

  /** RAM once [start, stop) holds the flash words from `source` on, in order. */
  function Loaded(ram: seq<bv32>, start: nat, stop: nat, flash: seq<bv32>, source: nat): (r: seq<bv32>)
    requires start <= stop <= |ram| && source + (stop - start) <= |flash|
    ensures |r| == |ram|
  {
    ram[..start] + flash[source..source + (stop - start)] + ram[stop..]
  }

  /** RAM once every word of [start, stop) holds the bss marker. */
  function Filled(ram: seq<bv32>, start: nat, stop: nat): (r: seq<bv32>)
    requires start <= stop <= |ram|
    ensures |r| == |ram|
  {
    seq(|ram|, k requires 0 <= k < |ram| => if start <= k < stop then BssFill else ram[k])
  }

  /** The copy, word by word: the k-th word of the range comes from source + (k - start), every other word is kept. */
  lemma LoadedWords(ram: seq<bv32>, start: nat, stop: nat, flash: seq<bv32>, source: nat)
    requires start <= stop <= |ram| && source + (stop - start) <= |flash|
    ensures forall k | 0 <= k < |ram| ::
      Loaded(ram, start, stop, flash, source)[k] == if start <= k < stop then flash[source + (k - start)] else ram[k]
  {
    var r := Loaded(ram, start, stop, flash, source);
    forall k | 0 <= k < |ram|
      ensures r[k] == if start <= k < stop then flash[source + (k - start)] else ram[k]
    {
      if k < start {
        assert r[k] == ram[..start][k];
      } else if k < stop {
        assert r[k] == flash[source..source + (stop - start)][k - start];
      } else {
        assert r[k] == ram[stop..][k - stop];
      }
    }
  }

  /** The fill puts the marker, which is not 0, in every word of the range and keeps every other word. */
  lemma FilledWords(ram: seq<bv32>, start: nat, stop: nat)
    requires start <= stop <= |ram|
    ensures forall k | start <= k < stop :: Filled(ram, start, stop)[k] == 0xDEAD_BEEF != 0
    ensures Filled(ram, start, stop)[..start] == ram[..start]
    ensures Filled(ram, start, stop)[stop..] == ram[stop..]
  {
    var r := Filled(ram, start, stop);
    assert forall k | 0 <= k < start :: r[..start][k] == ram[..start][k];
    assert forall k | 0 <= k < |ram| - stop :: r[stop..][k] == ram[stop..][k];
  }

  /** Copying twice from an unchanged flash is copying once. */
  lemma LoadedIdempotent(ram: seq<bv32>, start: nat, stop: nat, flash: seq<bv32>, source: nat)
    requires start <= stop <= |ram| && source + (stop - start) <= |flash|
    ensures Loaded(Loaded(ram, start, stop, flash, source), start, stop, flash, source)
         == Loaded(ram, start, stop, flash, source)
  {
    var once := Loaded(ram, start, stop, flash, source);
    LoadedWords(ram, start, stop, flash, source);
    LoadedWords(once, start, stop, flash, source);
  }

  /** Filling twice is filling once. */
  lemma FilledIdempotent(ram: seq<bv32>, start: nat, stop: nat)
    requires start <= stop <= |ram|
    ensures Filled(Filled(ram, start, stop), start, stop) == Filled(ram, start, stop)
  {
  }

  /**
   * The model of `_load_data_from_flash`: `dest` walks [start, stop) and
   * `src` walks flash from `source`, one word each per step.
   */
  method LoadDataFromFlash(ram: array<bv32>, start: nat, stop: nat, flash: array<bv32>, source: nat)
    requires ram != flash
    requires start <= stop <= ram.Length && source + (stop - start) <= flash.Length
    modifies ram
    ensures ram[..] == Loaded(old(ram[..]), start, stop, flash[..], source)
  {
    ghost var r := Loaded(ram[..], start, stop, flash[..], source);
    LoadedWords(ram[..], start, stop, flash[..], source);
    var src := source;
    var dest := start;
    while dest != stop
      invariant start <= dest <= stop && src == source + (dest - start)
      invariant forall k | 0 <= k < ram.Length ::
        ram[k] == if start <= k < dest then r[k] else old(ram[k])
      decreases stop - dest
    {
      ram[dest] := flash[src];
      dest := dest + 1;
      src := src + 1;
    }
    assert forall k | 0 <= k < ram.Length :: ram[..][k] == r[k];
  }

  /** The model of `_zero_initialize_bss_data`: `dest` walks [start, stop) storing the marker. */
  method ZeroInitializeBssData(ram: array<bv32>, start: nat, stop: nat)
    requires start <= stop <= ram.Length
    modifies ram
    ensures ram[..] == Filled(old(ram[..]), start, stop)
  {
    var dest := start;
    while dest != stop
      invariant start <= dest <= stop
      invariant forall k | 0 <= k < ram.Length ::
        ram[k] == if start <= k < dest then BssFill else old(ram[k])
      decreases stop - dest
    {
      ram[dest] := BssFill;
      dest := dest + 1;
    }
    assert forall k | 0 <= k < ram.Length :: ram[..][k] == Filled(old(ram[..]), start, stop)[k];
  }

  /** RAM as `_main` hands it to `main`: first the copy, then the fill. */
  function AfterReset(ram: seq<bv32>, flash: seq<bv32>, layout: LinkerLayout): (r: seq<bv32>)
    requires Fits(layout, |ram|, |flash|)
    ensures |r| == |ram|
  {
    Filled(Loaded(ram, layout.dataStart, layout.dataStop, flash, layout.dataSource),
           layout.bssStart, layout.bssStop)
  }

  /**
   * Word by word after reset: the fill wins where the two regions overlap,
   * a data word holds its flash word, and every word outside both regions
   * is what it was.
   */
  lemma AfterResetWords(ram: seq<bv32>, flash: seq<bv32>, layout: LinkerLayout, k: nat)
    requires Fits(layout, |ram|, |flash|) && k < |ram|
    ensures layout.bssStart <= k < layout.bssStop ==> AfterReset(ram, flash, layout)[k] == BssFill
    ensures !(layout.bssStart <= k < layout.bssStop) && layout.dataStart <= k < layout.dataStop ==>
      AfterReset(ram, flash, layout)[k] == flash[layout.dataSource + (k - layout.dataStart)]
    ensures !(layout.bssStart <= k < layout.bssStop) && !(layout.dataStart <= k < layout.dataStop) ==>
      AfterReset(ram, flash, layout)[k] == ram[k]
  {
    LoadedWords(ram, layout.dataStart, layout.dataStop, flash, layout.dataSource);
  }

  /** With the regions apart, as the linker script lays them out, the order of the two steps does not matter. */
  lemma DisjointRegionsCommute(ram: seq<bv32>, flash: seq<bv32>, layout: LinkerLayout)
    requires Fits(layout, |ram|, |flash|)
    requires layout.dataStop <= layout.bssStart || layout.bssStop <= layout.dataStart
    ensures AfterReset(ram, flash, layout)
         == Loaded(Filled(ram, layout.bssStart, layout.bssStop),
                   layout.dataStart, layout.dataStop, flash, layout.dataSource)
  {
    var filled := Filled(ram, layout.bssStart, layout.bssStop);
    LoadedWords(ram, layout.dataStart, layout.dataStop, flash, layout.dataSource);
    LoadedWords(filled, layout.dataStart, layout.dataStop, flash, layout.dataSource);
  }

  /**
   * The model of `_main` up to the call of `main`: the data copy, then the
   * bss fill.
   */
  method ResetMain(ram: array<bv32>, flash: array<bv32>, layout: LinkerLayout)
    requires ram != flash && Fits(layout, ram.Length, flash.Length)
    modifies ram
    ensures ram[..] == AfterReset(old(ram[..]), flash[..], layout)
  {
    LoadDataFromFlash(ram, layout.dataStart, layout.dataStop, flash, layout.dataSource);
    ZeroInitializeBssData(ram, layout.bssStart, layout.bssStop);
  }

  // ---------------------------------------------------------------------
  // HardFault diagnostics

  /** SCB_HFSR_FORCED_Msk: the fault was escalated to HardFault (section B3.2.16 of the ARMv7-M manual). */
  const HfsrForced: bv32 := 0x4000_0000

  /** The CFSR bits the handler tests (section B3.2.15 of the ARMv7-M manual). */
  const CfsrIbuserr: bv32 := 0x0000_0100
  const CfsrUndefinstr: bv32 := 0x0001_0000
  const CfsrInvstate: bv32 := 0x0002_0000
  const CfsrInvpc: bv32 := 0x0004_0000
  const CfsrNocp: bv32 := 0x0008_0000
  const CfsrUnaligned: bv32 := 0x0100_0000
  const CfsrDivbyzero: bv32 := 0x0200_0000

  /** The fault the handler names. */
  datatype FaultKind =
    | DivByZero | Unaligned | NoCoprocessor | InvalidPc | InvalidState
    | UndefinedInstruction | InstructionBusError | Unrecognized

  /** The if/else-if chain over CFSR: the first bit set, in the handler's order, decides. */
  function Classify(cfsr: bv32): FaultKind {
    if cfsr & CfsrDivbyzero != 0 then DivByZero
    else if cfsr & CfsrUnaligned != 0 then Unaligned
    else if cfsr & CfsrNocp != 0 then NoCoprocessor
    else if cfsr & CfsrInvpc != 0 then InvalidPc
    else if cfsr & CfsrInvstate != 0 then InvalidState
    else if cfsr & CfsrUndefinstr != 0 then UndefinedInstruction
    else if cfsr & CfsrIbuserr != 0 then InstructionBusError
    else Unrecognized
  }

  /** The handler's debug message for each fault. */
  function Message(kind: FaultKind): string {
    match kind
    case DivByZero => "DIVBYZERO Fault\n"
    case Unaligned => "UNALIGNED Fault\n"
    case NoCoprocessor => "NOCP fault\n"
    case InvalidPc => "INVPC fault\n"
    case InvalidState => "INVSTATE fault\n"
    case UndefinedInstruction => "UNDEFINSTR fault\n"
    case InstructionBusError => "IBUSERR fault\n"
    case Unrecognized => "Unrecognized fault\n"
  }

  /**
   * Strict priority: a fault is named exactly when its bit is set and no
   * bit earlier in the chain is; "Unrecognized" exactly when none of the
   * seven is set.
   */
  lemma ClassifyPriority(cfsr: bv32)
    ensures Classify(cfsr) == DivByZero <==> Bit(cfsr, 25)
    ensures Classify(cfsr) == Unaligned <==> !Bit(cfsr, 25) && Bit(cfsr, 24)
    ensures Classify(cfsr) == NoCoprocessor <==> !Bit(cfsr, 25) && !Bit(cfsr, 24) && Bit(cfsr, 19)
    ensures Classify(cfsr) == InvalidPc <==>
      !Bit(cfsr, 25) && !Bit(cfsr, 24) && !Bit(cfsr, 19) && Bit(cfsr, 18)
    ensures Classify(cfsr) == InvalidState <==>
      !Bit(cfsr, 25) && !Bit(cfsr, 24) && !Bit(cfsr, 19) && !Bit(cfsr, 18) && Bit(cfsr, 17)
    ensures Classify(cfsr) == UndefinedInstruction <==>
      !Bit(cfsr, 25) && !Bit(cfsr, 24) && !Bit(cfsr, 19) && !Bit(cfsr, 18) && !Bit(cfsr, 17) && Bit(cfsr, 16)
    ensures Classify(cfsr) == InstructionBusError <==>
      !Bit(cfsr, 25) && !Bit(cfsr, 24) && !Bit(cfsr, 19) && !Bit(cfsr, 18) && !Bit(cfsr, 17) && !Bit(cfsr, 16)
      && Bit(cfsr, 8)
    ensures Classify(cfsr) == Unrecognized <==>
      !Bit(cfsr, 25) && !Bit(cfsr, 24) && !Bit(cfsr, 19) && !Bit(cfsr, 18) && !Bit(cfsr, 17) && !Bit(cfsr, 16)
      && !Bit(cfsr, 8)
  {
  }

  /** The seven tested bits together. */
  const CfsrTested: bv32 := 0x030F_0100

  /** Only the seven tested bits matter: the memory-management and bus status bits are ignored. */
  lemma ClassifyIgnoresOtherBits(cfsr: bv32)
    ensures Classify(cfsr) == Classify(cfsr & CfsrTested)
  {
  }

  /** Each fault has its own message. */
  lemma MessagesDistinct(a: FaultKind, b: FaultKind)
    ensures Message(a) == Message(b) <==> a == b
  {
  }

  /** One item of the handler's debug output: a LOG_HEX32 value or a DebugLog line. */
  datatype LogItem = Hex(value: bv32) | Text(line: string)

  /** The eight words the processor stacks on exception entry, as logged: r0, r1, r2, r3, r12, lr, pc, psr. */
  function StackedRegisters(stack: seq<bv32>): (log: seq<LogItem>)
    requires |stack| >= 8
    ensures |log| == 8 && forall j | 0 <= j < 8 :: log[j] == Hex(stack[j])
  {
    [Hex(stack[0]), Hex(stack[1]), Hex(stack[2]), Hex(stack[3]),
     Hex(stack[4]), Hex(stack[5]), Hex(stack[6]), Hex(stack[7])]
  }

  /** All the handler logs before its breakpoint. */
  function FaultLog(hfsr: bv32, cfsr: bv32, stack: seq<bv32>): seq<LogItem>
    requires |stack| >= 8
  {
    [Hex(hfsr)]
    + (if hfsr & HfsrForced != 0 then [Hex(cfsr), Hex(CfsrIbuserr), Text(Message(Classify(cfsr)))] else [])
    + StackedRegisters(stack)
  }

  /** How many lines of text a log holds. */
  function TextCount(log: seq<LogItem>): nat {
    if |log| == 0 then 0 else TextCount(log[..|log| - 1]) + (if log[|log| - 1].Text? then 1 else 0)
  }

  lemma {:induction false} TextCountAppend(a: seq<LogItem>, b: seq<LogItem>)
    ensures TextCount(a + b) == TextCount(a) + TextCount(b)
    decreases |b|
  {
    if |b| == 0 {
      assert a + b == a;
    } else {
      TextCountAppend(a, b[..|b| - 1]);
      assert (a + b)[..|a + b| - 1] == a + b[..|b| - 1];
    }
  }

  lemma {:induction false} NoTextInHex(log: seq<LogItem>)
    requires forall j | 0 <= j < |log| :: log[j].Hex?
    ensures TextCount(log) == 0
  {
    if |log| > 0 {
      NoTextInHex(log[..|log| - 1]);
    }
  }

  /**
   * CFSR is decoded only when HFSR says FORCED: then the log holds exactly
   * one message, the classifier's; otherwise no message at all. Either way
   * the log starts with HFSR and ends with the stacked registers in order.
   */
  lemma FaultLogShape(hfsr: bv32, cfsr: bv32, stack: seq<bv32>)
    requires |stack| >= 8
    ensures var log := FaultLog(hfsr, cfsr, stack);
      && log[0] == Hex(hfsr)
      && log[|log| - 8..] == StackedRegisters(stack)
      && (Bit(hfsr, 30) ==> |log| == 12 && log[1] == Hex(cfsr) && log[3] == Text(Message(Classify(cfsr))))
      && (!Bit(hfsr, 30) ==> |log| == 9)
      && TextCount(log) == if Bit(hfsr, 30) then 1 else 0
  {
    var log := FaultLog(hfsr, cfsr, stack);
    var middle := if hfsr & HfsrForced != 0 then [Hex(cfsr), Hex(CfsrIbuserr), Text(Message(Classify(cfsr)))] else [];
    assert hfsr & HfsrForced != 0 <==> Bit(hfsr, 30);
    TextCountAppend([Hex(hfsr)] + middle, StackedRegisters(stack));
    TextCountAppend([Hex(hfsr)], middle);
    NoTextInHex(StackedRegisters(stack));
    assert TextCount([Hex(hfsr)]) == 0 by {
      assert [Hex(hfsr)][..0] == [];
    }
    if hfsr & HfsrForced != 0 {
      var line := Text(Message(Classify(cfsr)));
      NoTextInHex([Hex(cfsr), Hex(CfsrIbuserr)]);
      TextCountAppend([Hex(cfsr), Hex(CfsrIbuserr)], [line]);
      assert [Hex(cfsr), Hex(CfsrIbuserr)] + [line] == middle;
      assert TextCount([line]) == 1 by {
        assert [line][..0] == [];
      }
    }
  }

  /** The System Control Block's two fault status words. */
  class Scb {
    var hfsr: bv32
    var cfsr: bv32

    constructor (hfsr: bv32, cfsr: bv32)
      ensures this.hfsr == hfsr && this.cfsr == cfsr
    {
      this.hfsr, this.cfsr := hfsr, cfsr;
    }
  }

  /**
   * The model of `HardFaultHandler` up to its breakpoint: the debug output
   * it writes, given the fault status words and the exception stack frame
   * `HardFaultHandlerASM` passes in.
   */
  method HardFaultHandler(scb: Scb, stack: array<bv32>) returns (log: seq<LogItem>)
    requires stack.Length >= 8
    ensures log == FaultLog(scb.hfsr, scb.cfsr, stack[..])
  {
    log := [Hex(scb.hfsr)];
    if scb.hfsr & HfsrForced != 0 {
      log := log + [Hex(scb.cfsr), Hex(CfsrIbuserr)];
      var kind := Classify(scb.cfsr);
      log := log + [Text(Message(kind))];
    }
    var r0, r1, r2, r3 := stack[0], stack[1], stack[2], stack[3];
    var r12, lr, pc, psr := stack[4], stack[5], stack[6], stack[7];
    log := log + [Hex(r0), Hex(r1), Hex(r2), Hex(r3), Hex(r12), Hex(lr), Hex(pc), Hex(psr)];
  }

  // ---------------------------------------------------------------------
  // The interrupt vector table

  /** What an entry of `interrupts[]` holds. */
  datatype Vector =
    | StackEnd | Reset | InfiniteLoop | HardFault | MemFault | BusFault | SysTick
    | Dma1Channel(channel: nat) | Adc

  /** The system exceptions before IRQ0, and the external interrupts. */
  const ExceptionCount: nat := 16
  const IrqCount: nat := 53

  /** `interrupts[]`, entry for entry, in five runs: the system vectors, then IRQ0 onwards. */
  const SystemVectors: seq<Vector> := [
    StackEnd, Reset, InfiniteLoop, HardFault, MemFault, BusFault, InfiniteLoop,
    InfiniteLoop, InfiniteLoop, InfiniteLoop, InfiniteLoop, InfiniteLoop,
    InfiniteLoop, InfiniteLoop, InfiniteLoop, SysTick]
  /** IRQ0 .. IRQ10. */
  const LowIrqVectors: seq<Vector> := [
    InfiniteLoop, InfiniteLoop, InfiniteLoop, InfiniteLoop, InfiniteLoop, InfiniteLoop,
    InfiniteLoop, InfiniteLoop, InfiniteLoop, InfiniteLoop, InfiniteLoop]
  /** IRQ11 .. IRQ18. */
  const PeripheralVectors: seq<Vector> := [
    Dma1Channel(1), Dma1Channel(2), Dma1Channel(3), Dma1Channel(4),
    Dma1Channel(5), Dma1Channel(6), Dma1Channel(7), Adc]
  /** IRQ19 .. IRQ35. */
  const MiddleIrqVectors: seq<Vector> := [
    InfiniteLoop, InfiniteLoop, InfiniteLoop, InfiniteLoop, InfiniteLoop, InfiniteLoop,
    InfiniteLoop, InfiniteLoop, InfiniteLoop, InfiniteLoop, InfiniteLoop, InfiniteLoop,
    InfiniteLoop, InfiniteLoop, InfiniteLoop, InfiniteLoop, InfiniteLoop]
  /** IRQ36 .. IRQ52. */
  const HighIrqVectors: seq<Vector> := [
    InfiniteLoop, InfiniteLoop, InfiniteLoop, InfiniteLoop, InfiniteLoop, InfiniteLoop,
    InfiniteLoop, InfiniteLoop, InfiniteLoop, InfiniteLoop, InfiniteLoop, InfiniteLoop,
    InfiniteLoop, InfiniteLoop, InfiniteLoop, InfiniteLoop, InfiniteLoop]
  const Interrupts: seq<Vector> :=
    SystemVectors + LowIrqVectors + PeripheralVectors + MiddleIrqVectors + HighIrqVectors

  /** The DMA1 channel 1 and ADC interrupt numbers of the STM32F103. */
  const Dma1Channel1Irq: nat := 11
  const AdcIrq: nat := 18

  /**
   * The ARMv7-M vector layout (section B1.5.3 of the ARMv7-M manual) with
   * this program's handlers: the initial stack pointer, Reset, the fixed
   * exceptions, then IRQn at 16 + n.
   */
  function Expected(index: nat): Vector {
    if index == 0 then StackEnd
    else if index == 1 then Reset
    else if index == 3 then HardFault
    else if index == 4 then MemFault
    else if index == 5 then BusFault
    else if index == 15 then SysTick
    else if ExceptionCount + Dma1Channel1Irq <= index < ExceptionCount + Dma1Channel1Irq + 7 then
      Dma1Channel(index - ExceptionCount - Dma1Channel1Irq + 1)
    else if index == ExceptionCount + AdcIrq then Adc
    else InfiniteLoop
  }

  /** The table has one entry per exception and IRQ, each the one the layout asks for. */
  lemma InterruptsLayout()
    ensures |Interrupts| == ExceptionCount + IrqCount == 69
    ensures forall index | 0 <= index < |Interrupts| :: Interrupts[index] == Expected(index)
  {
    forall index | 0 <= index < |Interrupts|
      ensures Interrupts[index] == Expected(index)
    {
      if index < 16 {
        assert Interrupts[index] == SystemVectors[index];
      } else if index < 27 {
        assert Interrupts[index] == LowIrqVectors[index - 16];
      } else if index < 35 {
        assert Interrupts[index] == PeripheralVectors[index - 27];
      } else if index < 52 {
        assert Interrupts[index] == MiddleIrqVectors[index - 35];
      } else {
        assert Interrupts[index] == HighIrqVectors[index - 52];
      }
    }
  }

  /** The handler an interrupt number reaches. */
  function IrqVector(irq: nat): (v: Vector)
    requires irq < IrqCount
    ensures v == Expected(ExceptionCount + irq)
  {
    InterruptsLayout();
    Interrupts[ExceptionCount + irq]
  }

  /** IRQ11 .. IRQ17 are DMA1 channels 1 .. 7, IRQ18 is the ADC, and every other IRQ only loops. */
  lemma IrqVectors(irq: nat)
    requires irq < IrqCount
    ensures Dma1Channel1Irq <= irq < Dma1Channel1Irq + 7 <==> IrqVector(irq).Dma1Channel?
    ensures IrqVector(irq).Dma1Channel? ==> IrqVector(irq).channel == irq - Dma1Channel1Irq + 1
    ensures irq == AdcIrq <==> IrqVector(irq) == Adc
    ensures !(Dma1Channel1Irq <= irq <= AdcIrq) <==> IrqVector(irq) == InfiniteLoop
  {
  }
}
