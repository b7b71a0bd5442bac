/** The pin record of app/src/gpio-control.c, used on its own and inside other controllers. */
module GpioControl {
  import opened Hardware

  /** `GPIOAction`: what `actionDigitalPin` is asked to do. */
  datatype GpioAction = ActionRead | ActionSet | ActionClear | ActionToggle

  /** `GPIOPinController`: one pin bitmask of one port, the clock that gates it, its mode,
      alternate function and pull resistor. */
  datatype GpioPinController = GpioPinController(
    port: u32, pin: u32, clock: ClockId, mode: u8, afMode: u8, pupdResistor: u8)

  /** createGPIOPin: every field is the corresponding argument. */
  function CreateGpioPin(port: u32, pin: u32, clock: ClockId, mode: u8, afMode: u8, pupd: u8)
    : (g: GpioPinController)
    ensures g.port == port && g.pin == pin && g.clock == clock
    ensures g.mode == mode && g.afMode == afMode && g.pupdResistor == pupd
  {
    GpioPinController(port, pin, clock, mode, afMode, pupd)
  }
}
