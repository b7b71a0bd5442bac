/** The analog pin record of app/src/adc-control.c. */
module AdcControl {
  import opened Hardware

  /** `ADCPinController`; `sample_time` is a 16-bit field. */
  datatype AdcPinController = AdcPinController(
    port: u32, pin: u32, clock: ClockId, adcClock: ClockId, sampleTime: u16, mode: u8,
    adcPort: u32, adcChannel: u8)

  /** createADCPin: every field is the corresponding argument, except that the 32-bit
      sample time is cut to the low 16 bits by the narrower field. */
  function CreateAdcPin(port: u32, pin: u32, clock: ClockId, adcClock: ClockId, sampleTime: u32,
                        mode: u8, adcPort: u32, adcChannel: u8): (a: AdcPinController)
    ensures a.port == port && a.pin == pin && a.clock == clock && a.adcClock == adcClock
    ensures a.sampleTime == sampleTime % 0x1_0000
    ensures sampleTime < 0x1_0000 ==> a.sampleTime == sampleTime
    ensures a.mode == mode && a.adcPort == adcPort && a.adcChannel == adcChannel
  {
    AdcPinController(port, pin, clock, adcClock, sampleTime % 0x1_0000, mode, adcPort, adcChannel)
  }
}
