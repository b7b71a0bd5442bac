/**
 * The UART controller of app/src/uart-control.c. A `UARTController` is a plain struct
 * holding its ring buffer BY VALUE, and every function takes the controller by value:
 * each read works on a private copy of the ring-buffer fields, so the caller's indices
 * never move (only the bytes in the shared storage can be seen through every copy).
 * The receive interrupt writes into the file-static `currently_active_uart`, the copy
 * recorded by the last `createUARTPeripheral`.
 */
module UartControl {
  import opened Hardware
  import opened RingBuffers
  import opened GpioControl

  const RING_BUFFER_SIZE: u32 := 128

  datatype UartController = UartController(
    uartClock: ClockId, baudrate: u32, rx: GpioPinController, tx: GpioPinController,
    handle: u32, rb: RingFields, dataBuffer: array<byte>, nvicEntry: int)

  /** The file-static `currently_active_uart`. */
  class ActiveUart {
    var current: UartController

    /** Zero-initialised: no storage behind the ring buffer. */
    constructor ()
      ensures current.rb.buffer.Length == 0 && current.rb.mask == 0
      ensures current.rb.readIndex == 0 && current.rb.writeIndex == 0 && !current.rb.Valid()
    {
      var none := new byte[0];
      var pin := GpioPinController(0, 0, 0, 0, 0, 0);
      current := UartController(0, 0, pin, pin, 0, RingFields(none, 0, 0, 0), none, 0);
    }

    /** general_uart_isr, run as one atomic step: when the overrun or receive flag of the
        active UART is set, the received word, cut to a byte, is pushed onto the active
        controller's ring buffer; a full buffer drops it. Nothing else changes. */
    method GeneralUartIsr(overrun: bool, received: bool, data: u16)
      requires current.rb.Valid()
      modifies this, current.rb.buffer
      ensures current == old(current).(rb := current.rb)
      ensures current.rb.Valid() && current.rb.buffer == old(current.rb.buffer)
      ensures current.rb.mask == old(current.rb.mask)
      ensures current.rb.Contents() ==
                if (overrun || received) && |old(current.rb.Contents())| < old(current.rb.mask)
                then old(current.rb.Contents()) + [(data % 0x100) as byte]
                else old(current.rb.Contents())
    {
      if overrun || received {
        var rb := new RingBuffer.Copy(current.rb);
        var ok := rb.Write((data % 0x100) as byte);
        current := current.(rb := rb.Fields());
      }
    }
  }

  /** createUARTPeripheral: RX and TX pins in alternate-function mode with no pull, an
      empty ring buffer over fresh zeroed storage of 128 bytes, and the result recorded
      as the active UART. */
  method CreateUartPeripheral(active: ActiveUart, handle: u32, uartClock: ClockId, baudrate: u32,
                              rxPort: u32, txPort: u32, rxPin: u32, txPin: u32,
                              rxClock: ClockId, txClock: ClockId, rxAfMode: u8, txAfMode: u8,
                              nvicEntry: int)
    returns (uart: UartController)
    modifies active
    ensures uart.handle == handle && uart.uartClock == uartClock && uart.baudrate == baudrate
    ensures uart.nvicEntry == nvicEntry
    ensures uart.rx == GpioPinController(rxPort, rxPin, rxClock, GPIO_MODE_AF, rxAfMode, GPIO_PUPD_NONE)
    ensures uart.tx == GpioPinController(txPort, txPin, txClock, GPIO_MODE_AF, txAfMode, GPIO_PUPD_NONE)
    ensures fresh(uart.dataBuffer) && uart.dataBuffer[..] == seq(RING_BUFFER_SIZE as int, _ => 0)
    ensures uart.rb == RingFields(uart.dataBuffer, RING_BUFFER_SIZE - 1, 0, 0)
    ensures uart.rb.Valid() && uart.rb.Contents() == []
    ensures active.current == uart
  {
    var mode := GPIO_MODE_AF;
    var rx := CreateGpioPin(rxPort, rxPin, rxClock, mode, rxAfMode, GPIO_PUPD_NONE);
    var tx := CreateGpioPin(txPort, txPin, txClock, mode, txAfMode, GPIO_PUPD_NONE);
    var dataBuffer := new byte[RING_BUFFER_SIZE](_ => 0);
    var rb := new RingBuffer.Zero();
    assert IsPowerOfTwo(128) by {
      assert IsPowerOfTwo(1) && IsPowerOfTwo(2) && IsPowerOfTwo(4) && IsPowerOfTwo(8);
      assert IsPowerOfTwo(16) && IsPowerOfTwo(32) && IsPowerOfTwo(64);
    }
    rb.Setup(dataBuffer, RING_BUFFER_SIZE);
    uart := UartController(uartClock, baudrate, rx, tx, handle, rb.Fields(), dataBuffer, nvicEntry);
    active.current := uart;
  }

  /** currentUartWrite: one blocking send per byte of data[..len], in order, on the
      controller's USART. */
  method CurrentUartWrite(uart: UartController, data: seq<byte>, len: u32) returns (ev: seq<Event>)
    requires len as int <= |data|
    ensures |ev| == len as int
    ensures forall k :: 0 <= k < len as int ==> ev[k] == UsartSendBlocking(uart.handle, data[k])
  {
    ev := [];
    var i: u32 := 0;
    while i < len
      invariant i <= len && |ev| == i as int
      invariant forall k :: 0 <= k < i as int ==> ev[k] == UsartSendBlocking(uart.handle, data[k])
    {
      var one := CurrentUartWriteByte(uart, data[i]);
      ev := ev + one;
      i := i + 1;
    }
  }

  /** currentUartWriteByte. */
  method CurrentUartWriteByte(uart: UartController, b: byte) returns (ev: seq<Event>)
    ensures ev == [UsartSendBlocking(uart.handle, b as u16)]
  {
    ev := [UsartSendBlocking(uart.handle, b as u16)];
  }

  /** currentUartRead: 0 for len == 0; otherwise the queued bytes of the controller, oldest
      first, up to len of them. The reads advance a copy of the ring-buffer fields, so
      nothing the caller holds changes. */
  method CurrentUartRead(uart: UartController, len: u32) returns (n: u32, data: seq<byte>)
    requires uart.rb.Valid()
    ensures n <= len && n as int <= |uart.rb.Contents()|
    ensures n as int == if len as int <= |uart.rb.Contents()| then len as int else |uart.rb.Contents()|
    ensures data == uart.rb.Contents()[..n]
  {
    if len <= 0 {
      return 0, [];
    }
    var copy := new RingBuffer.Copy(uart.rb);
    n, data := ReadUpTo(copy, len);
  }

  /** currentUartReadByte: the oldest queued byte, or the uninitialised local (`garbage`)
      when nothing is queued. */
  method CurrentUartReadByte(uart: UartController, garbage: byte) returns (b: byte)
    requires uart.rb.Valid()
    ensures uart.rb.Contents() == [] ==> b == garbage
    ensures uart.rb.Contents() != [] ==> b == uart.rb.Contents()[0]
  {
    var n, data := CurrentUartRead(uart, 1);
    b := if n == 1 then data[0] else garbage;
  }

  /** currentUartDataAvailable: the negation of the (copied) ring buffer's emptiness. */
  method CurrentUartDataAvailable(uart: UartController) returns (available: bool)
    ensures available <==> uart.rb.readIndex != uart.rb.writeIndex
    ensures uart.rb.Valid() ==> (available <==> uart.rb.Contents() != [])
  {
    var copy := new RingBuffer.Copy(uart.rb);
    available := !copy.Empty();
  }
}
