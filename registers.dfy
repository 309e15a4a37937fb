/**
 * The memory-mapped peripherals the core touches, as plain 32-bit words:
 * the GPIO port and RCC layouts of include/stm32_specifics.h, the DMA
 * interrupt status/clear pair and the bits the handlers test. Registers are
 * fields of classes; a volatile access is an ordinary field access.
 */
module Registers {
  /** Bit b of a register word. */
  predicate Bit(w: bv32, b: bv32)
    requires b < 32
  {
    (w >> b) & 1 == 1
  }

  /** GPIO_t: the two 4-bit-per-pin configuration words, the output data and the set/reset word. */
  class Gpio {
    var crl: bv32
    var crh: bv32
    var odr: bv16
    var bsrr: bv32

    constructor (crl: bv32, crh: bv32, odr: bv16)
      ensures this.crl == crl && this.crh == crh && this.odr == odr && this.bsrr == 0
    {
      this.crl, this.crh, this.odr, this.bsrr := crl, crh, odr, 0;
    }
  }

  /**
   * What a BSRR store does to the output data (section 9.2.5 of RM0008):
   * bits 0-15 set output bits, bits 16-31 reset them, and a set wins when
   * both halves name the same pin.
   */
  function ApplyBsrr(odr: bv16, bsrr: bv32): bv16 {
    (odr & !((bsrr >> 16) as bv16)) | ((bsrr & 0xffff) as bv16)
  }

  /** RCC_t, reduced to the APB2 peripheral clock enable word. */
  class Rcc {
    var apb2enr: bv32

    constructor (apb2enr: bv32)
      ensures this.apb2enr == apb2enr
    {
      this.apb2enr := apb2enr;
    }
  }

  /** The DMA1 interrupt status word and the write-one-to-clear flag word. */
  class Dma {
    var isr: bv32
    var ifcr: bv32

    constructor (isr: bv32, ifcr: bv32)
      ensures this.isr == isr && this.ifcr == ifcr
    {
      this.isr, this.ifcr := isr, ifcr;
    }
  }

  /**
   * The channel 1 flags of DMA_ISR and the matching clear bits of
   * DMA_IFCR (section 13.4 of the STM32F10x reference manual RM0008):
   * bit 0 global, bit 1 transfer complete, bit 2 half transfer, bit 3
   * transfer error.
   */
  const IsrTcif1: bv32 := 0x2
  const IsrHtif1: bv32 := 0x4
  const IsrTeif1: bv32 := 0x8
  const IfcrCtcif1: bv32 := 0x2
  const IfcrChtif1: bv32 := 0x4
  const IfcrCteif1: bv32 := 0x8
}
