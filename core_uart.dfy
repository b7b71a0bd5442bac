/**
 * The console UART of shared/src/core/uart.c: USART2, a file-static 128-byte ring buffer
 * filled by the receive interrupt and drained by the read functions, and the newlib
 * `_write` hook that sends stdout/stderr with every "\n" sent as "\r\n".
 */
module CoreUart {
  import opened Hardware
  import opened RingBuffers
  import opened Wrappers

  const RING_BUFFER_SIZE: u32 := 128
  const STDOUT_FILENO: int := 1
  const STDERR_FILENO: int := 2
  const EIO: int := 5

  const LF: byte := 10
  const CR: byte := 13

  /** The bytes `_write` puts on the line for `text`: a carriage return before every line feed. */
  function CrBeforeLf(text: seq<byte>): (line: seq<byte>)
  {
    if text == [] then []
    else (if text[0] == LF then [CR, LF] else [text[0]]) + CrBeforeLf(text[1..])
  }

  /** Drops a carriage return wherever it comes just before a line feed. */
  function DropCrBeforeLf(line: seq<byte>): (text: seq<byte>)
  {
    if line == [] then []
    else if |line| >= 2 && line[0] == CR && line[1] == LF then [LF] + DropCrBeforeLf(line[2..])
    else [line[0]] + DropCrBeforeLf(line[1..])
  }

  lemma {:induction false} CrBeforeLfNeverStartsWithLf(text: seq<byte>)
    ensures CrBeforeLf(text) == [] <==> text == []
    ensures CrBeforeLf(text) != [] ==> CrBeforeLf(text)[0] != LF
  {
  }

  /** Expanding the newlines loses nothing: dropping the inserted carriage returns gives the text back. */
  lemma {:induction false} CrBeforeLfRoundTrip(text: seq<byte>)
    ensures DropCrBeforeLf(CrBeforeLf(text)) == text
  {
    if text != [] {
      var rest := CrBeforeLf(text[1..]);
      CrBeforeLfRoundTrip(text[1..]);
      CrBeforeLfNeverStartsWithLf(text[1..]);
      if text[0] == LF {
        assert CrBeforeLf(text) == [CR, LF] + rest;
        assert ([CR, LF] + rest)[2..] == rest;
      } else {
        assert CrBeforeLf(text) == [text[0]] + rest;
        assert ([text[0]] + rest)[1..] == rest;
      }
    }
  }

  /** Every line feed on the line has a carriage return just before it. */
  lemma {:induction false} CrBeforeLfShape(text: seq<byte>)
    ensures forall k :: 0 <= k < |CrBeforeLf(text)| && CrBeforeLf(text)[k] == LF ==>
              k > 0 && CrBeforeLf(text)[k - 1] == CR
  {
    if text != [] {
      CrBeforeLfShape(text[1..]);
      CrBeforeLfNeverStartsWithLf(text[1..]);
      var head := if text[0] == LF then [CR, LF] else [text[0]];
      var rest := CrBeforeLf(text[1..]);
      assert CrBeforeLf(text) == head + rest;
      forall k | 0 <= k < |head + rest| && (head + rest)[k] == LF
        ensures k > 0 && (head + rest)[k - 1] == CR
      {
        if k >= |head| {
          assert (head + rest)[k] == rest[k - |head|];
          if k - |head| == 0 {
            assert false;
          } else {
            assert (head + rest)[k - 1] == rest[k - |head| - 1];
          }
        }
      }
    }
  }

  /** The line is one byte longer than the text per line feed. */
  lemma {:induction false} CrBeforeLfLength(text: seq<byte>)
    ensures |CrBeforeLf(text)| == |text| + multiset(text)[LF]
  {
    if text != [] {
      CrBeforeLfLength(text[1..]);
      assert text == [text[0]] + text[1..];
      assert multiset(text) == multiset([text[0]]) + multiset(text[1..]);
    }
  }

  /** `_write(file, ptr, len)`: for stdout and stderr, every byte of ptr[..len] is sent in
      order, each line feed preceded by a carriage return, and the loop counter is returned;
      any other file sets errno to EIO and returns -1 without sending anything. */
  method WriteHook(file: int, ptr: seq<byte>, len: int) returns (r: int, errno: Option<int>, ev: seq<Event>)
    requires (file == STDOUT_FILENO || file == STDERR_FILENO) ==> len <= |ptr|
    ensures file == STDOUT_FILENO || file == STDERR_FILENO ==>
              r == (if len < 0 then 0 else len) && errno == None &&
              ev == SendAll(USART2, CrBeforeLf(ptr[..if len < 0 then 0 else len]))
    ensures !(file == STDOUT_FILENO || file == STDERR_FILENO) ==> r == -1 && errno == Some(EIO) && ev == []
  {
    ev := [];
    errno := None;
    if file == STDOUT_FILENO || file == STDERR_FILENO {
      var i := 0;
      while i < len
        invariant 0 <= i && (len >= 0 ==> i <= len) && (len < 0 ==> i == 0)
        invariant ev == SendAll(USART2, CrBeforeLf(ptr[..i]))
      {
        ghost var chunk: seq<byte> := if ptr[i] == LF then [CR, LF] else [ptr[i]];
        ghost var sent := ev;
        if ptr[i] == LF {
          ev := ev + [UsartSendBlocking(USART2, CR as u16)];
        }
        ev := ev + [UsartSendBlocking(USART2, ptr[i] as u16)];
        assert ev == sent + SendAll(USART2, chunk);
        CrBeforeLfSnoc(ptr[..i], ptr[i]);
        SendAllAppend(USART2, CrBeforeLf(ptr[..i]), chunk);
        assert ptr[..i + 1] == ptr[..i] + [ptr[i]];
        i := i + 1;
      }
      return i, errno, ev;
    }
    return -1, Some(EIO), [];
  }

  lemma {:induction false} CrBeforeLfSnoc(text: seq<byte>, b: byte)
    ensures CrBeforeLf(text + [b]) == CrBeforeLf(text) + (if b == LF then [CR, LF] else [b])
  {
    if text != [] {
      assert (text + [b])[1..] == text[1..] + [b];
      CrBeforeLfSnoc(text[1..], b);
    } else {
      assert [b][1..] == [];
    }
  }

  lemma {:induction false} SendAllAppend(usart: u32, a: seq<byte>, b: seq<byte>)
    ensures SendAll(usart, a + b) == SendAll(usart, a) + SendAll(usart, b)
  {
  }

  /** coreUartWrite: one blocking send per byte of data[..len], in order. */
  method UartWrite(data: seq<byte>, len: u32) returns (ev: seq<Event>)
    requires len as int <= |data|
    ensures ev == SendAll(USART2, data[..len])
  {
    ev := [];
    var i: u32 := 0;
    while i < len
      invariant i <= len
      invariant ev == SendAll(USART2, data[..i])
    {
      var one := UartWriteByte(data[i]);
      assert data[..i + 1] == data[..i] + [data[i]];
      SendAllAppend(USART2, data[..i], [data[i]]);
      ev := ev + one;
      i := i + 1;
    }
  }

  /** coreUartWriteByte. */
  method UartWriteByte(b: byte) returns (ev: seq<Event>)
    ensures ev == [UsartSendBlocking(USART2, b as u16)]
  {
    ev := [UsartSendBlocking(USART2, b as u16)];
  }

  /** The module's file-static state: the ring buffer `rb` and its storage `data_buffer`. */
  class Console {
    const rb: RingBuffer
    const dataBuffer: array<byte>

    ghost predicate Ready()
      reads this, rb
    {
      rb.Valid()
    }

    /** Both statics start zero-initialised; `rb` has no storage until coreUartSetup. */
    constructor ()
      ensures fresh(rb) && fresh(dataBuffer) && dataBuffer.Length == RING_BUFFER_SIZE as int
      ensures rb.mask == 0 && rb.readIndex == 0 && rb.writeIndex == 0 && !Ready()
    {
      rb := new RingBuffer.Zero();
      dataBuffer := new byte[RING_BUFFER_SIZE](_ => 0);
    }

    /** coreUartSetup: reset `rb` onto `data_buffer` (empty, mask 127), then configure and
        enable USART2 with its receive interrupt. */
    method Setup(baudrate: u32) returns (ev: seq<Event>)
      requires dataBuffer.Length == RING_BUFFER_SIZE as int
      modifies rb
      ensures rb.Fields() == RingFields(dataBuffer, RING_BUFFER_SIZE - 1, 0, 0)
      ensures Ready() && rb.Contents() == []
      ensures ev == [RccClockEnable(RCC_USART2), UsartSetModeTxRx(USART2), UsartSetFlowControlNone(USART2),
                     UsartSetDatabits(USART2, 8), UsartSetBaudrate(USART2, baudrate),
                     UsartSetParity(USART2, 0), UsartSetStopbits(USART2, 1),
                     UsartEnableRxInterrupt(USART2), NvicEnableIrq(NVIC_USART2_IRQ), UsartEnable(USART2)]
    {
      assert IsPowerOfTwo(128) by {
        assert IsPowerOfTwo(1) && IsPowerOfTwo(2) && IsPowerOfTwo(4) && IsPowerOfTwo(8);
        assert IsPowerOfTwo(16) && IsPowerOfTwo(32) && IsPowerOfTwo(64);
      }
      rb.Setup(dataBuffer, RING_BUFFER_SIZE);
      ev := [RccClockEnable(RCC_USART2), UsartSetModeTxRx(USART2), UsartSetFlowControlNone(USART2),
             UsartSetDatabits(USART2, 8), UsartSetBaudrate(USART2, baudrate),
             UsartSetParity(USART2, 0), UsartSetStopbits(USART2, 1),
             UsartEnableRxInterrupt(USART2), NvicEnableIrq(NVIC_USART2_IRQ), UsartEnable(USART2)];
    }

    /** usart2_isr, run as one atomic step: when the overrun or receive flag is set, the
        received word, cut to a byte, is pushed; a full buffer drops it. */
    method ReceiveInterrupt(overrun: bool, received: bool, data: u16)
      requires Ready()
      modifies rb, rb.buffer
      ensures Ready() && rb.buffer == old(rb.buffer) && rb.mask == old(rb.mask)
      ensures rb.Contents() ==
                if (overrun || received) && |old(rb.Contents())| < old(rb.mask)
                then old(rb.Contents()) + [(data % 0x100) as byte]
                else old(rb.Contents())
    {
      if overrun || received {
        var ok := rb.Write((data % 0x100) as byte);
      }
    }

    /** coreUartRead: 0 for len == 0; otherwise up to len bytes in arrival order, stopping
        at the first read that finds the buffer empty. */
    method Read(len: u32) returns (n: u32, data: seq<byte>)
      requires Ready()
      modifies rb
      ensures Ready() && rb.buffer == old(rb.buffer)
      ensures n as int == if len as int <= |old(rb.Contents())| then len as int else |old(rb.Contents())|
      ensures data == old(rb.Contents())[..n]
      ensures rb.Contents() == old(rb.Contents())[n..]
    {
      if len <= 0 {
        return 0, [];
      }
      n, data := ReadUpTo(rb, len);
    }

    /** coreUartReadByte: one read of at most one byte; on an empty buffer the result is
        the uninitialised local, here `garbage`. */
    method ReadByte(garbage: byte) returns (b: byte)
      requires Ready()
      modifies rb
      ensures Ready() && rb.buffer == old(rb.buffer)
      ensures old(rb.Contents()) == [] ==> b == garbage && rb.Contents() == []
      ensures old(rb.Contents()) != [] ==> b == old(rb.Contents())[0] && rb.Contents() == old(rb.Contents())[1..]
    {
      var n, data := Read(1);
      b := if n == 1 then data[0] else garbage;
    }

    /** coreUartDataAvailable. */
    function DataAvailable(): (available: bool)
      reads this, rb
      ensures available == !rb.Empty()
      ensures Ready() ==> (available <==> rb.Contents() != [])
    {
      !rb.Empty()
    }
  }
}
