/** The pin-capability tables of app/inc/parser.h: which pins reach an ADC channel and which pins
    carry a USART transmit or receive line. */
module ParserTables {
  import opened Hardware

  /** Bases of ports B and C. */
  const GPIOB: u32 := GPIOA + PORT_SIZE
  const GPIOC: u32 := GPIOA + 2 * PORT_SIZE

  /** `ADCPinMapping`: a pin of a port and the ADC1 channel it is wired to. */
  datatype AdcPinMapping = AdcPinMapping(port: u32, pin: u32, adcChannel: int)

  const ADC_PIN_MAP_SIZE: nat := 14

  /** `adcPinMappings`. */
  const ADC_PIN_MAPPINGS: seq<AdcPinMapping> := [
    AdcPinMapping(GPIOA, PinMask(0), 0),
    AdcPinMapping(GPIOA, PinMask(1), 1),
    AdcPinMapping(GPIOA, PinMask(4), 4),
    AdcPinMapping(GPIOA, PinMask(5), 5),
    AdcPinMapping(GPIOA, PinMask(6), 6),
    AdcPinMapping(GPIOA, PinMask(7), 7),
    AdcPinMapping(GPIOB, PinMask(0), 8),
    AdcPinMapping(GPIOB, PinMask(1), 9),
    AdcPinMapping(GPIOC, PinMask(0), 10),
    AdcPinMapping(GPIOC, PinMask(1), 11),
    AdcPinMapping(GPIOC, PinMask(2), 12),
    AdcPinMapping(GPIOC, PinMask(3), 13),
    AdcPinMapping(GPIOC, PinMask(4), 14),
    AdcPinMapping(GPIOC, PinMask(5), 15)
  ]

  /** `UARTValidPin`: whether a pin can carry a USART line, which line, of which USART, and the
      alternate function that routes it. */
  datatype UartValidPin = UartValidPin(isValid: bool, isTx: bool, isRx: bool, handle: u32, afMode: u8)

  const UART1_AF: u8 := GPIO_AF7
  const UART6_AF: u8 := GPIO_AF8

  const UART1_TX_PIN: UartValidPin := UartValidPin(true, true, false, USART1, UART1_AF)
  const UART1_RX_PIN: UartValidPin := UartValidPin(true, false, true, USART1, UART1_AF)
  const UART6_TX_PIN: UartValidPin := UartValidPin(true, true, false, USART6, UART6_AF)
  const UART6_RX_PIN: UartValidPin := UartValidPin(true, false, true, USART6, UART6_AF)
  const UART_INVALID_PIN: UartValidPin := UartValidPin(false, false, false, 0, 0)

  /** `UARTPinMapping`: a pin of a port and the USART line it can carry. */
  datatype UartPinMapping = UartPinMapping(port: u32, pin: u32, uartPin: UartValidPin)

  const UART_PIN_MAP_SIZE: nat := 10

  /** `uartPinMappings`. */
  const UART_PIN_MAPPINGS: seq<UartPinMapping> := [
    UartPinMapping(GPIOA, PinMask(9), UART1_TX_PIN),
    UartPinMapping(GPIOA, PinMask(10), UART1_RX_PIN),
    UartPinMapping(GPIOA, PinMask(11), UART6_TX_PIN),
    UartPinMapping(GPIOA, PinMask(12), UART6_RX_PIN),
    UartPinMapping(GPIOA, PinMask(15), UART1_TX_PIN),
    UartPinMapping(GPIOB, PinMask(3), UART1_RX_PIN),
    UartPinMapping(GPIOB, PinMask(6), UART1_TX_PIN),
    UartPinMapping(GPIOB, PinMask(7), UART1_RX_PIN),
    UartPinMapping(GPIOC, PinMask(6), UART6_TX_PIN),
    UartPinMapping(GPIOC, PinMask(7), UART6_RX_PIN)
  ]

  /** A USART line descriptor is consistent: valid, exactly one of transmit and receive, on
      USART1 with AF7 or on USART6 with AF8. */
  predicate ConsistentUartPin(u: UartValidPin)
  {
    u.isValid && u.isTx != u.isRx &&
    ((u.handle == USART1 && u.afMode == GPIO_AF7) || (u.handle == USART6 && u.afMode == GPIO_AF8))
  }

  /** The ADC table holds as many entries as ADC_PIN_MAP_SIZE says, no pin appears twice, no
      channel appears twice, and every channel is one of ADC1's channels 0 to 15. */
  lemma AdcTableWellFormed()
    ensures |ADC_PIN_MAPPINGS| == ADC_PIN_MAP_SIZE
    ensures forall i, j :: 0 <= i < j < |ADC_PIN_MAPPINGS| ==>
      (ADC_PIN_MAPPINGS[i].port, ADC_PIN_MAPPINGS[i].pin) != (ADC_PIN_MAPPINGS[j].port, ADC_PIN_MAPPINGS[j].pin)
    ensures forall i, j :: 0 <= i < j < |ADC_PIN_MAPPINGS| ==>
      ADC_PIN_MAPPINGS[i].adcChannel != ADC_PIN_MAPPINGS[j].adcChannel
    ensures forall m :: m in ADC_PIN_MAPPINGS ==> 0 <= m.adcChannel <= 15
  {
    assert PinMask(0) == 1 && PinMask(1) == 2 && PinMask(2) == 4 && PinMask(3) == 8;
    assert PinMask(4) == 16 && PinMask(5) == 32 && PinMask(6) == 64 && PinMask(7) == 128;
  }

  /** The UART table holds as many entries as UART_PIN_MAP_SIZE says, no pin appears twice, and
      every entry is a consistent line descriptor. */
  lemma UartTableWellFormed()
    ensures |UART_PIN_MAPPINGS| == UART_PIN_MAP_SIZE
    ensures forall i, j :: 0 <= i < j < |UART_PIN_MAPPINGS| ==>
      (UART_PIN_MAPPINGS[i].port, UART_PIN_MAPPINGS[i].pin) != (UART_PIN_MAPPINGS[j].port, UART_PIN_MAPPINGS[j].pin)
    ensures forall m :: m in UART_PIN_MAPPINGS ==> ConsistentUartPin(m.uartPin)
  {
    assert PinMask(3) == 8 && PinMask(6) == 64 && PinMask(7) == 128;
    assert PinMask(9) == 512 && PinMask(10) == 1024 && PinMask(11) == 2048;
    assert PinMask(12) == 4096 && PinMask(15) == 32768;
  }

  /** The invalid descriptor is neither valid nor a transmit or receive line. */
  lemma InvalidUartPinHasNoRole()
    ensures !UART_INVALID_PIN.isValid && !UART_INVALID_PIN.isTx && !UART_INVALID_PIN.isRx
    ensures !ConsistentUartPin(UART_INVALID_PIN)
  {
  }
}
