/**
 * The on-board LED of include/led.h: pin 13 of GPIO port C, configured
 * as a 2 MHz open-drain output and driven through the set/reset word.
 */
module Led {
  import opened Registers
  import Adc

  /** LED_PORT: the LED is pin 13 of port C. */
  const LedPort: nat := 13

  /** GPIO_MODE_OUT_2 and GPIO_CONF_GP_OD of include/stm32_specifics.h. */
  const GpioModeOut2: bv32 := 0x2
  const GpioConfGpOd: bv32 := 0x4

  /** RCC_APB2ENR_IOPCEN, the port C clock enable bit (bit 4, RCC_GPIOC_ENABLE in include/stm32_specifics.h). */
  const ApbEnablePortC: bv32 := 0x10

  /** The two BSRR words: the reset half for pin 13 (LedOn) and the set half (LedOff). */
  const LedOnWord: bv32 := 0x2000_0000
  const LedOffWord: bv32 := 0x2000

  /** The CRH nibble of the LED pin: `(LED_PORT - 8) * 4` is the same nibble SetGpioMode picks for pin 13. */
  lemma LedShiftIsPinShift()
    ensures ((LedPort - 8) * 4) as bv32 == Adc.PinShift(LedPort) == 20
  {
  }

  /**
   * The model of `LedInit`: turns on the port C clock without touching
   * the other enable bits, then configures pin 13 in CRH.
   */
  method LedInit(rcc: Rcc, gpioc: Gpio)
    modifies rcc, gpioc
    ensures rcc.apb2enr == old(rcc.apb2enr) | ApbEnablePortC
    ensures gpioc.crh == Adc.SetNibble(old(gpioc.crh), 20, GpioModeOut2 | GpioConfGpOd)
    ensures gpioc.crl == old(gpioc.crl) && gpioc.odr == old(gpioc.odr) && gpioc.bsrr == old(gpioc.bsrr)
  {
    rcc.apb2enr := rcc.apb2enr | ApbEnablePortC;
    var shift := ((LedPort - 8) * 4) as bv32;
    gpioc.crh := Adc.SetNibble(gpioc.crh, shift, GpioModeOut2 | GpioConfGpOd);
  }

  /** After LedInit, bits 20-23 of CRH hold 0x6 and every other CRH bit is as before. */
  lemma LedInitConfiguresPin(crh: bv32)
    ensures (Adc.SetNibble(crh, 20, GpioModeOut2 | GpioConfGpOd) >> 20) & 0xf == 0x6
    ensures Adc.SetNibble(crh, 20, GpioModeOut2 | GpioConfGpOd) & !(0xf << 20) == crh & !(0xf << 20)
  {
  }

  /** The clock enable sets bit 4 and keeps every enable bit that was already set. */
  lemma ClockEnableKeepsOthers(apb2enr: bv32, b: bv32)
    requires b < 32
    ensures Bit(apb2enr | ApbEnablePortC, b) == (b == 4 || Bit(apb2enr, b))
  {
  }

  /**
   * The model of `LedOn`: stores `1 << (LED_PORT + 16)` in BSRR. The `odr`
   * field is the output data before the hardware applies the store; what
   * the store does to the pin is `ApplyBsrr` of that word.
   */
  method LedOn(gpioc: Gpio)
    modifies gpioc
    ensures gpioc.bsrr == LedOnWord
    ensures ApplyBsrr(old(gpioc.odr), gpioc.bsrr) == old(gpioc.odr) & !0x2000
    ensures gpioc.crl == old(gpioc.crl) && gpioc.crh == old(gpioc.crh) && gpioc.odr == old(gpioc.odr)
  {
    gpioc.bsrr := 1 << (LedPort + 16);
    LedOnResetsPin(gpioc.odr);
  }

  /** The model of `LedOff`: stores `1 << LED_PORT` in BSRR; its pin effect is `ApplyBsrr` of that word. */
  method LedOff(gpioc: Gpio)
    modifies gpioc
    ensures gpioc.bsrr == LedOffWord
    ensures ApplyBsrr(old(gpioc.odr), gpioc.bsrr) == old(gpioc.odr) | 0x2000
    ensures gpioc.crl == old(gpioc.crl) && gpioc.crh == old(gpioc.crh) && gpioc.odr == old(gpioc.odr)
  {
    gpioc.bsrr := 1 << LedPort;
    LedOffSetsPin(gpioc.odr);
  }

  /** LedOn's word drives pin 13 low and leaves the other output bits alone. */
  lemma LedOnResetsPin(odr: bv16)
    ensures ApplyBsrr(odr, LedOnWord) == odr & !0x2000
  {
  }

  /** LedOff's word drives pin 13 high and leaves the other output bits alone. */
  lemma LedOffSetsPin(odr: bv16)
    ensures ApplyBsrr(odr, LedOffWord) == odr | 0x2000
  {
  }
}
