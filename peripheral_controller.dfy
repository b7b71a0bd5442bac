/**
 * The peripheral record of app/src/peripheral-controller.c: a type tag, a union of the
 * pin, analog-pin and UART controllers, an active flag, and a pair of function pointers
 * chosen by the constructor. The function pointers follow the union member the
 * constructor filled, so here they are selected by the `Controller` variant.
 * `TYPE_NONE` is the "no peripheral" answer of the board's pin query.
 */
module PeripheralController {
  import opened Hardware
  import opened GpioControl
  import opened AdcControl
  import opened UartControl

  datatype PeripheralType =
    | TypeGpioInput | TypeGpioOutput | TypeUart | TypeAdc | TypeOther | TypeNone

  predicate IsGpioType(t: PeripheralType)
  {
    t == TypeGpioInput || t == TypeGpioOutput
  }

  datatype Controller =
    | Gpio(gpio: GpioPinController)
    | Adc(adc: AdcPinController)
    | Uart(uart: UartController)

  datatype Peripheral = Peripheral(kind: PeripheralType, controller: Controller, status: bool)
  {
    /** The tag names the union member that holds the data. */
    predicate Tagged()
    {
      match controller
      case Gpio(_) => IsGpioType(kind)
      case Adc(_) => kind == TypeAdc
      case Uart(_) => kind == TypeUart
    }
  }

  /** createStandardGPIO: the requested type, inactive, the pin in input mode exactly when
      the type is GPIO input (output otherwise), no alternate function. */
  function CreateStandardGpio(port: u32, pin: u32, clock: ClockId, inputOutput: PeripheralType,
                              pupd: u8): (p: Peripheral)
    ensures p.kind == inputOutput && !p.status && p.controller.Gpio?
    ensures p.controller.gpio.mode == (if inputOutput == TypeGpioInput then GPIO_MODE_INPUT else GPIO_MODE_OUTPUT)
    ensures p.controller.gpio == GpioPinController(port, pin, clock, p.controller.gpio.mode, 0, pupd)
    ensures IsGpioType(inputOutput) ==> p.Tagged()
  {
    var mode := if inputOutput == TypeGpioInput then GPIO_MODE_INPUT else GPIO_MODE_OUTPUT;
    Peripheral(inputOutput, Gpio(CreateGpioPin(port, pin, clock, mode, 0, pupd)), false)
  }

  /** createStandardADCPin: an inactive ADC peripheral in analog mode. */
  function CreateStandardAdcPin(port: u32, pin: u32, clock: ClockId, adcClock: ClockId,
                                sampleTime: u32, adcPort: u32, adcChannel: u8): (p: Peripheral)
    ensures p.kind == TypeAdc && !p.status && p.Tagged()
    ensures p.controller.adc == CreateAdcPin(port, pin, clock, adcClock, sampleTime, GPIO_MODE_ANALOG, adcPort, adcChannel)
  {
    Peripheral(TypeAdc, Adc(CreateAdcPin(port, pin, clock, adcClock, sampleTime, GPIO_MODE_ANALOG, adcPort, adcChannel)), false)
  }

  /** createStandardUARTUSART: wraps the controller built by createUARTPeripheral (which
      also records it as the active UART) as an inactive UART peripheral. */
  method CreateStandardUartUsart(active: ActiveUart, handle: u32, uartClock: ClockId, baudrate: u32,
                                 rxPort: u32, txPort: u32, rxPin: u32, txPin: u32,
                                 rxClock: ClockId, txClock: ClockId, rxAfMode: u8, txAfMode: u8,
                                 nvicEntry: int)
    returns (p: Peripheral)
    modifies active
    ensures p.kind == TypeUart && !p.status && p.Tagged() && p.controller.uart == active.current
    ensures p.controller.uart.handle == handle && p.controller.uart.uartClock == uartClock
    ensures p.controller.uart.baudrate == baudrate && p.controller.uart.nvicEntry == nvicEntry
    ensures p.controller.uart.rx == GpioPinController(rxPort, rxPin, rxClock, GPIO_MODE_AF, rxAfMode, GPIO_PUPD_NONE)
    ensures p.controller.uart.tx == GpioPinController(txPort, txPin, txClock, GPIO_MODE_AF, txAfMode, GPIO_PUPD_NONE)
    ensures fresh(p.controller.uart.dataBuffer) && p.controller.uart.rb.buffer == p.controller.uart.dataBuffer
    ensures p.controller.uart.rb.Valid() && p.controller.uart.rb.Contents() == []
  {
    var uart := CreateUartPeripheral(active, handle, uartClock, baudrate, rxPort, txPort, rxPin, txPin,
                                     rxClock, txClock, rxAfMode, txAfMode, nvicEntry);
    p := Peripheral(TypeUart, Uart(uart), false);
  }

  /** The hardware calls of the enable function the constructor installed. */
  function EnableEvents(c: Controller): seq<Event>
  {
    match c
    case Gpio(g) => [GpioModeSetup(g.port, g.mode, g.pupdResistor, g.pin)]
    case Adc(a) =>
      [GpioModeSetup(a.port, a.mode, GPIO_PUPD_NONE, a.pin), AdcPowerOff(a.adcPort),
       AdcDisableScanMode(a.adcPort), AdcSetSampleTime(a.adcPort, a.adcChannel, a.sampleTime),
       AdcPowerOn(a.adcPort)]
    case Uart(u) =>
      [GpioModeSetup(u.rx.port, u.rx.mode, u.rx.pupdResistor, u.rx.pin),
       GpioSetAf(u.rx.port, u.rx.afMode, u.rx.pin),
       GpioModeSetup(u.tx.port, u.tx.mode, u.tx.pupdResistor, u.tx.pin),
       GpioSetAf(u.tx.port, u.tx.afMode, u.tx.pin),
       UsartSetModeTxRx(u.handle), UsartSetFlowControlNone(u.handle), UsartSetDatabits(u.handle, 8),
       UsartSetBaudrate(u.handle, u.baudrate), UsartSetParity(u.handle, 0), UsartSetStopbits(u.handle, 1),
       UsartEnableRxInterrupt(u.handle), NvicEnableIrq(u.nvicEntry), UsartEnable(u.handle)]
  }

  /** The hardware calls of the disable function the constructor installed. */
  function DisableEvents(c: Controller): seq<Event>
  {
    match c
    case Gpio(_) => []
    case Adc(_) => []
    case Uart(u) => [UsartDisable(u.handle), NvicDisableIrq(u.nvicEntry), UsartDisableRxInterrupt(u.handle)]
  }

  /** The active flag the disable function leaves: false for pins and UARTs, but true for
      an ADC, whose disable function sets it rather than clearing it. */
  function StatusAfterDisable(c: Controller): bool
  {
    c.Adc?
  }

  /** For a well-tagged peripheral, disable leaves it active exactly when it is an ADC. */
  lemma DisableKeepsOnlyAdcActive(p: Peripheral)
    requires p.Tagged()
    ensures StatusAfterDisable(p.controller) <==> p.kind == TypeAdc
  {
  }

  /** A GPIO enable issues exactly one mode setup with the pin's own mode and pull; its
      disable issues nothing, so a pin is switched off by its clock alone. */
  lemma GpioEnableEvents(g: GpioPinController)
    ensures EnableEvents(Gpio(g)) == [GpioModeSetup(g.port, g.mode, g.pupdResistor, g.pin)]
    ensures DisableEvents(Gpio(g)) == []
  {
  }

  /** A UART's enable ends by enabling the USART, after the NVIC line, and its disable
      starts by disabling it and turns the NVIC line off. */
  lemma UartEnableOrder(u: UartController)
    ensures |EnableEvents(Uart(u))| == 13
    ensures EnableEvents(Uart(u))[12] == UsartEnable(u.handle)
    ensures EnableEvents(Uart(u))[11] == NvicEnableIrq(u.nvicEntry)
    ensures DisableEvents(Uart(u))[0] == UsartDisable(u.handle)
    ensures NvicDisableIrq(u.nvicEntry) in DisableEvents(Uart(u))
  {
  }

  /** `periph->enablePeripheral(periph)` on ps[i]: the installed enable function for the
      variant; all three set the active flag. */
  method EnablePeripheral(ps: array<Peripheral>, i: nat) returns (ev: seq<Event>)
    requires i < ps.Length
    modifies ps
    ensures ps[..] == old(ps[..])[i := old(ps[i]).(status := true)]
    ensures ev == EnableEvents(old(ps[i]).controller)
  {
    match ps[i].controller
    case Gpio(_) => ev := EnableStandardGpio(ps, i);
    case Adc(_) => ev := EnableAdcPin(ps, i);
    case Uart(_) => ev := EnableUart(ps, i);
  }

  /** `periph->disablePeripheral(periph)` on ps[i]. */
  method DisablePeripheral(ps: array<Peripheral>, i: nat) returns (ev: seq<Event>)
    requires i < ps.Length
    modifies ps
    ensures ps[..] == old(ps[..])[i := old(ps[i]).(status := StatusAfterDisable(old(ps[i]).controller))]
    ensures ev == DisableEvents(old(ps[i]).controller)
  {
    match ps[i].controller
    case Gpio(_) => ev := DisableStandardGpio(ps, i);
    case Adc(_) => ev := DisableAdcPin(ps, i);
    case Uart(_) => ev := DisableUart(ps, i);
  }

  /** enableStandardGPIO: configure the pin, then mark it active. */
  method EnableStandardGpio(ps: array<Peripheral>, i: nat) returns (ev: seq<Event>)
    requires i < ps.Length && ps[i].controller.Gpio?
    modifies ps
    ensures ps[..] == old(ps[..])[i := old(ps[i]).(status := true)]
    ensures ev == EnableEvents(old(ps[i]).controller)
  {
    var g := ps[i].controller.gpio;
    ev := [GpioModeSetup(g.port, g.mode, g.pupdResistor, g.pin)];
    ps[i] := ps[i].(status := true);
  }

  /** disableStandardGPIO: only clears the active flag. */
  method DisableStandardGpio(ps: array<Peripheral>, i: nat) returns (ev: seq<Event>)
    requires i < ps.Length && ps[i].controller.Gpio?
    modifies ps
    ensures ps[..] == old(ps[..])[i := old(ps[i]).(status := false)]
    ensures ev == []
  {
    ps[i] := ps[i].(status := false);
    ev := [];
  }

  /** enableADCPin: analog mode on the pin, then power-cycle ADC1 around the channel's
      sample-time setting, then mark it active. */
  method EnableAdcPin(ps: array<Peripheral>, i: nat) returns (ev: seq<Event>)
    requires i < ps.Length && ps[i].controller.Adc?
    modifies ps
    ensures ps[..] == old(ps[..])[i := old(ps[i]).(status := true)]
    ensures ev == EnableEvents(old(ps[i]).controller)
  {
    var a := ps[i].controller.adc;
    ev := [GpioModeSetup(a.port, a.mode, GPIO_PUPD_NONE, a.pin)];
    ev := ev + [AdcPowerOff(a.adcPort)];
    ev := ev + [AdcDisableScanMode(a.adcPort)];
    ev := ev + [AdcSetSampleTime(a.adcPort, a.adcChannel, a.sampleTime)];
    ev := ev + [AdcPowerOn(a.adcPort)];
    ps[i] := ps[i].(status := true);
  }

  /** disableADCPin: sets the active flag to true, as written. */
  method DisableAdcPin(ps: array<Peripheral>, i: nat) returns (ev: seq<Event>)
    requires i < ps.Length && ps[i].controller.Adc?
    modifies ps
    ensures ps[..] == old(ps[..])[i := old(ps[i]).(status := true)]
    ensures ev == []
  {
    ps[i] := ps[i].(status := true);
    ev := [];
  }

  /** enableUART: RX then TX pin setup, the 8N1 frame, the receive interrupt, and the USART
      itself, the active flag being set just before that last call. */
  method EnableUart(ps: array<Peripheral>, i: nat) returns (ev: seq<Event>)
    requires i < ps.Length && ps[i].controller.Uart?
    modifies ps
    ensures ps[..] == old(ps[..])[i := old(ps[i]).(status := true)]
    ensures ev == EnableEvents(old(ps[i]).controller)
  {
    var u := ps[i].controller.uart;
    ev := [GpioModeSetup(u.rx.port, u.rx.mode, u.rx.pupdResistor, u.rx.pin),
           GpioSetAf(u.rx.port, u.rx.afMode, u.rx.pin)];
    ev := ev + [GpioModeSetup(u.tx.port, u.tx.mode, u.tx.pupdResistor, u.tx.pin),
                GpioSetAf(u.tx.port, u.tx.afMode, u.tx.pin)];
    ev := ev + [UsartSetModeTxRx(u.handle), UsartSetFlowControlNone(u.handle), UsartSetDatabits(u.handle, 8),
                UsartSetBaudrate(u.handle, u.baudrate), UsartSetParity(u.handle, 0), UsartSetStopbits(u.handle, 1)];
    ev := ev + [UsartEnableRxInterrupt(u.handle), NvicEnableIrq(u.nvicEntry)];
    ps[i] := ps[i].(status := true);
    ev := ev + [UsartEnable(u.handle)];
  }

  /** disableUART: USART off, NVIC line off, receive interrupt off, then inactive. */
  method DisableUart(ps: array<Peripheral>, i: nat) returns (ev: seq<Event>)
    requires i < ps.Length && ps[i].controller.Uart?
    modifies ps
    ensures ps[..] == old(ps[..])[i := old(ps[i]).(status := false)]
    ensures ev == DisableEvents(old(ps[i]).controller)
  {
    var u := ps[i].controller.uart;
    ev := [UsartDisable(u.handle), NvicDisableIrq(u.nvicEntry), UsartDisableRxInterrupt(u.handle)];
    ps[i] := ps[i].(status := false);
  }
}
