/**
 * The hardware abstraction the firmware calls into (libopencm3 on an STM32F411).
 * Register-level effects are not modelled: every call the core makes is recorded as an
 * `Event`, and the operations of the core return the events they issue, in order.
 * Values the hardware hands back (a pin level, a received byte, a conversion result)
 * are parameters of the operations that read them.
 */
module Hardware {

  /** Fixed-width unsigned integers of the C code. */
  type u8 = x: int | 0 <= x < 0x100
  type u16 = x: int | 0 <= x < 0x1_0000
  type u32 = x: int | 0 <= x < 0x1_0000_0000

  /** A byte of a buffer or of the serial line. */
  type byte = u8

  /** An `enum rcc_periph_clken` value: which peripheral clock to gate. */
  type ClockId = u32

  /** Bases of the GPIO ports; ports are 0x400 apart (libopencm3, STM32F4). */
  const GPIOA: u32 := 0x4002_0000
  const PORT_SIZE: u32 := 0x400

  /** `GPIO_MODE_*` values. */
  const GPIO_MODE_INPUT: u8 := 0
  const GPIO_MODE_OUTPUT: u8 := 1
  const GPIO_MODE_AF: u8 := 2
  const GPIO_MODE_ANALOG: u8 := 3

  /** `GPIO_PUPD_*` values. */
  const GPIO_PUPD_NONE: u8 := 0
  const GPIO_PUPD_PULLUP: u8 := 1
  const GPIO_PUPD_PULLDOWN: u8 := 2

  /** Alternate functions used by the UART pins. */
  const GPIO_AF7: u8 := 7
  const GPIO_AF8: u8 := 8

  /** Base of the ADC1 peripheral. */
  const ADC1: u32 := 0x4001_2000

  /** USART register bases. */
  const USART1: u32 := 0x4001_1000
  const USART2: u32 := 0x4000_4400
  const USART6: u32 := 0x4001_1400

  /** `RCC_ADC1`: bit 8 of the APB2 enable register at offset 0x44. */
  const RCC_ADC1: ClockId := 0x44 * 32 + 8
  /** `RCC_USART2`: bit 17 of the APB1 enable register at offset 0x40. */
  const RCC_USART2: ClockId := 0x40 * 32 + 17
  /** Interrupt number of USART2. */
  const NVIC_USART2_IRQ: int := 38

  /** One call into the hardware abstraction layer, with its arguments. */
  datatype Event =
    | RccClockEnable(clock: ClockId)
    | RccClockDisable(clock: ClockId)
    | GpioModeSetup(port: u32, mode: u8, pupd: u8, pins: u32)
    | GpioSetAf(port: u32, af: u8, pins: u32)
    | GpioSet(port: u32, pins: u32)
    | GpioClear(port: u32, pins: u32)
    | GpioToggle(port: u32, pins: u32)
    | AdcPowerOff(adc: u32)
    | AdcDisableScanMode(adc: u32)
    | AdcSetSampleTime(adc: u32, channel: u8, time: u16)
    | AdcPowerOn(adc: u32)
    | AdcSetRegularSequence(adc: u32, length: nat, channel: u8)
    | AdcStartConversionRegular(adc: u32)
    | UsartSetModeTxRx(usart: u32)
    | UsartSetFlowControlNone(usart: u32)
    | UsartSetDatabits(usart: u32, bits: nat)
    | UsartSetBaudrate(usart: u32, baud: u32)
    | UsartSetParity(usart: u32, parity: nat)
    | UsartSetStopbits(usart: u32, stopbits: nat)
    | UsartEnableRxInterrupt(usart: u32)
    | UsartDisableRxInterrupt(usart: u32)
    | UsartEnable(usart: u32)
    | UsartDisable(usart: u32)
    | NvicEnableIrq(irq: int)
    | NvicDisableIrq(irq: int)
    | UsartSendBlocking(usart: u32, data: u16)

  /** 2 to the power n. */
  function Pow2(n: nat): (p: nat)
    ensures p >= 1
  {
    if n == 0 then 1 else 2 * Pow2(n - 1)
  }

  /** Powers of two grow with the exponent. */
  lemma {:induction false} Pow2Monotone(n: nat, m: nat)
    requires n <= m
    ensures Pow2(n) <= Pow2(m)
  {
    if n < m {
      Pow2Monotone(n, m - 1);
    }
  }

  /** `GPIOn` (`1 << n`): the bitmask of pin n of a port, for the 16 pins of a port. */
  function PinMask(n: nat): (mask: u32)
    requires n <= 15
    ensures mask == Pow2(n) && 1 <= mask <= 0x8000
  {
    Pow2Monotone(n, 15);
    assert Pow2(15) == 0x8000;
    Pow2(n)
  }

  /** One blocking send per byte of `bytes`, in order, on `usart`. */
  function SendAll(usart: u32, bytes: seq<byte>): (ev: seq<Event>)
    ensures |ev| == |bytes|
    ensures forall k :: 0 <= k < |bytes| ==> ev[k] == UsartSendBlocking(usart, bytes[k])
  {
    if bytes == [] then [] else [UsartSendBlocking(usart, bytes[0])] + SendAll(usart, bytes[1..])
  }
}
