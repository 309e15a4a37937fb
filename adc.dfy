/**
 * The register updates of include/adc.h: the GPIO pin configuration
 * nibble and the NVIC interrupt-enable store.
 */
module Adc {
  import opened Registers

  /**
   * The read-modify-write of SetGpioMode: clear the four bits at `shift`,
   * then OR in `mode << shift`. `mode` is the bit pattern of the C int; the
   * signed shifts `0xf << 28` and `mode << 28` are taken to wrap to 32 bits.
   */
  function SetNibble(word: bv32, shift: bv32, mode: bv32): bv32
    requires shift <= 28
  {
    (word & !(0xf << shift)) | (mode << shift)
  }

  /** The four configuration bits of a pin: `(port % 8) * 4`, in CRL or CRH. */
  function PinShift(port: nat): (shift: bv32)
    ensures shift <= 28 && shift % 4 == 0
  {
    ((port % 8) * 4) as bv32
  }

  /** A mode that fits four bits is what the pin's nibble reads afterwards. */
  lemma ModeLandsInNibble(word: bv32, shift: bv32, mode: bv32)
    requires shift <= 28 && mode < 16
    ensures (SetNibble(word, shift, mode) >> shift) & 0xf == mode
  {
  }

  /** A mode that fits four bits changes nothing outside the pin's nibble. */
  lemma OutsideNibbleKept(word: bv32, shift: bv32, mode: bv32)
    requires shift <= 28 && mode < 16
    ensures SetNibble(word, shift, mode) & !(0xf << shift) == word & !(0xf << shift)
  {
  }

  /** Setting the same mode twice leaves what one call leaves, for any mode. */
  lemma SetNibbleIdempotent(word: bv32, shift: bv32, mode: bv32)
    requires shift <= 28
    ensures SetNibble(SetNibble(word, shift, mode), shift, mode) == SetNibble(word, shift, mode)
  {
    MaskedOrIdempotent(word, !(0xf << shift), mode << shift);
  }

  /** Clearing with a mask and OR-ing in fixed bits is idempotent, whatever the bits. */
  lemma MaskedOrIdempotent(word: bv32, keep: bv32, bits: bv32)
    ensures (((word & keep) | bits) & keep) | bits == (word & keep) | bits
  {
  }

  /** A mode wider than four bits leaks into the next pin: mode 0x16 on pin 0 sets bit 4. */
  lemma WideModeLeaks()
    ensures SetNibble(0, PinShift(0), 0x16) == 0x16
    ensures SetNibble(0, PinShift(0), 0x16) & !(0xf << PinShift(0)) != 0
  {
  }

  /**
   * The model of `SetGpioMode`: pins 0-7 are configured in CRL, all
   * others in CRH; the other word, the output data and BSRR are untouched.
   */
  method SetGpioMode(gpio: Gpio, port: nat, mode: bv32)
    modifies gpio
    ensures port < 8 ==> gpio.crl == SetNibble(old(gpio.crl), PinShift(port), mode) && gpio.crh == old(gpio.crh)
    ensures port >= 8 ==> gpio.crh == SetNibble(old(gpio.crh), PinShift(port), mode) && gpio.crl == old(gpio.crl)
    ensures gpio.odr == old(gpio.odr) && gpio.bsrr == old(gpio.bsrr)
  {
    var shift := PinShift(port);
    if port < 8 {
      gpio.crl := SetNibble(gpio.crl, shift, mode);
    } else {
      gpio.crh := SetNibble(gpio.crh, shift, mode);
    }
  }

  /** The word EnableNvic stores: `1 << (irq % 32)`, bit 31 included. */
  function EnableWord(irq: nat): bv32 {
    1 << IrqBit(irq)
  }

  /** The position of an interrupt's bit within its ISER word. */
  function IrqBit(irq: nat): (b: bv32)
    ensures b < 32
  {
    (irq % 32) as bv32
  }

  /** The stored word has exactly one bit set, the interrupt's own bit within its ISER word. */
  lemma EnableWordSingleBit(irq: nat, b: bv32)
    requires b < 32
    ensures Bit(EnableWord(irq), b) <==> b == IrqBit(irq)
  {
  }

  /**
   * ISER is write-one-to-set (section B3.4.4 of the ARMv7-M Architecture
   * Reference Manual): the enabled set after a store is the old set with
   * the written ones added.
   */
  function AfterIserWrite(enabled: bv32, written: bv32): bv32 {
    enabled | written
  }

  /** Storing EnableWord(irq) enables that interrupt and leaves every other enable bit as it was. */
  lemma EnableNvicEnablesOne(enabled: bv32, irq: nat, b: bv32)
    requires b < 32
    ensures Bit(AfterIserWrite(enabled, EnableWord(irq)), b) == (b == IrqBit(irq) || Bit(enabled, b))
  {
  }

  /** The model of `EnableNvic`: stores EnableWord(irq) in ISER[irq / 32] and no other word. */
  method EnableNvic(iser: array<bv32>, irq: nat)
    requires irq / 32 < iser.Length
    modifies iser
    ensures iser[..] == old(iser[..])[irq / 32 := EnableWord(irq)]
  {
    iser[irq / 32] := 1 << IrqBit(irq);
  }
}
