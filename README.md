# NiTTY firmware core, modelled in Dafny

NiTTY is STM32F4 firmware. A host sends it text commands over USART2. The firmware
scans each command line into tokens and checks the arguments. A board controller
keeps growable lists of clock controllers and peripheral controllers (GPIO pins,
ADC pins, USARTs), and switches them on and off through libopencm3.

This project models that core, one Dafny module per C file:

| module | C file | form |
|---|---|---|
| `RingBuffers` | shared/src/core/ring-buffer.c | class over an `array<byte>`; index arithmetic proved with a bitwise-AND model |
| `CoreUart` | shared/src/core/uart.c | the console USART: `Console` class (ring buffer, RX interrupt), `_write` newline hook |
| `LocalMemory` | app/inc/local-memory.h | `GROW_CAPACITY` |
| `GpioControl`, `AdcControl` | app/src/gpio-control.c, adc-control.c | constructors of the controller records |
| `ClocksControl` | app/src/clocks-control.c | enable/disable of one clock entry of an array |
| `UartControl` | app/src/uart-control.c | the static "currently active UART" (class `ActiveUart`) and the by-value UART helpers |
| `PeripheralController` | app/src/peripheral-controller.c | creation of tagged peripherals; the enable/disable function pointers as a dispatch on the controller |
| `BoardControl` | app/src/board-control.c | class `BoardController` with the two arrays and their counts and capacities |
| `Tokens` | app/src/token.c | class `TokenVector` over an `array<Token>` |
| `Interpreter` | app/src/interpreter.c | class `Scanner` and the `interpret` loop, specified by `Tokenize` |
| `ParserTables` | app/inc/parser.h | the ADC and UART pin tables |
| `Parser` | app/src/parser.c | `parsePortPin` (with a pure `strtoul`), `inputOutput`, `parseTokens` |

`Hardware` holds the register constants and the `Event` datatype. Every libopencm3 call
that configures or drives the hardware is returned as an `Event` in a `seq<Event>`, in call
order, so contracts state exactly which of those calls an operation makes. The five kinds of
hardware read leave no `Event`; what they return is a parameter instead:

- `gpio_get` (app/src/board-control.c:587) is the parameter `level` of `ActionDigitalPin`.
- `adc_eoc` and `adc_read_regular` (app/src/board-control.c:654-656) are the parameter
  `sample` of `ActionAnalogPin`; the end-of-conversion wait is not modelled.
- `usart_get_flag` for ORE and RXNE, and `usart_recv` (app/src/uart-control.c:84-91,
  shared/src/core/uart.c:19-24), are the parameters `overrun`, `received` and `data` of
  `GeneralUartIsr` and `Console.ReceiveInterrupt`.
`Wrappers` holds `Option`.

The model follows the code as written, including these behaviours:

- `disableADCPin` sets `status` to true, so a disabled ADC stays active.
  `DisableKeepsOnlyAdcActive` proves this is the only kind that does.
  `killPeripheralOrPin` never disables the ADC clock as a result.
  `mutateADCToDigital` never reaches its clock-disable branch.
- `mutateDigitalPin` compares only the type. A pin already of the requested type keeps its old pull setting.
- The UART branch of `killPeripheralOrPin` compares the port. It tests the RX or TX pin only for being non-zero.
- `createUART` takes all three `clockExists` answers before it runs any clock block.
  A pin clock shared by RX and TX that was not there yet gets two entries
  (`UartSharedPinClockAddedTwice`). Every clock still ends up enabled (`UartClocksEnabled`).
- `UARTController` is passed by value. `readUARTPort` reads each byte from a fresh copy
  whose read index is never written back, so a non-empty copy would yield `len` copies
  of its oldest byte. That case is never reached, though:
  - `createUART` stores its own copy of the controller, with an empty ring buffer;
  - no board operation writes a UART entry's ring fields afterwards;
  - the receive interrupt pushes only into `currently_active_uart`.

  So the copy the board reads stays empty, and `readUARTPort` returns 0 whatever has
  been received (`InterruptDataNeverReachesBoard`).
- `inputOutput` has no `return` on its success path. `IoOutcome.FellOffEnd` models
  running off the end together with the decoded settings.
- `parseTokens` returns false for every first token.
- `interpret` fills a 20-slot array without a bound check.
- The scanner only produces the five keywords, port-pins, errors and end-of-line.
  A digit, a quote and the pull keywords never become a token of their own. As a
  consequence, no scanned line is ever accepted by `inputOutput`
  (`ScannedLinesAreNeverAccepted`).
- `deinitBoard` disables every clock before any peripheral.
- `_write` returns 0 for a negative length, after sending nothing.

## Model

| member | source | states |
|---|---|---|
| Hardware.PinMask | app/src/parser.c:56-62 | the GPIOn bit of pin n (n ≤ 15) is 2^n, between 1 and 0x8000 |
| RingBuffers.MaskAdvances | shared/src/core/ring-buffer.c:38-56 | for a power-of-two size, `(i + 1) & mask` is the successor of i, wrapping to 0 after mask |
| RingBuffers.MaskKeeps | shared/src/core/ring-buffer.c:38-56 | masking leaves an index that is already in range unchanged |
| RingBuffers.MaskClearsSize | shared/src/core/ring-buffer.c:38-56 | `(mask + 1) & mask` is 0 when mask + 1 is a power of two |
| RingBuffers.ContentsLength | shared/inc/core/ring-buffer.h:10-16 | the queued byte count from the two indices; empty iff they are equal; full (the next write index is the read index) iff mask bytes are queued; never more than mask |
| RingBuffers.RingBuffer.Setup | shared/src/core/ring-buffer.c:10-16 | a power-of-two storage gives a valid, empty buffer with mask = size - 1 and both indices 0 |
| RingBuffers.RingBuffer.Empty | shared/src/core/ring-buffer.c:25-28 | true iff the indices are equal, i.e. iff nothing is queued |
| RingBuffers.RingBuffer.Write | shared/src/core/ring-buffer.c:38-56 | succeeds iff fewer than mask bytes are queued; on success the byte is appended to the queue, otherwise nothing changes |
| RingBuffers.RingBuffer.Read | shared/src/core/ring-buffer.c:66-85 | succeeds iff the queue is non-empty; on success returns the oldest byte and drops it, otherwise leaves the caller's byte and the indices alone |
| RingBuffers.AppendAtWrite | shared/src/core/ring-buffer.c:38-56 | storing at the write index and advancing it appends exactly that byte to the window |
| RingBuffers.DropAtRead | shared/src/core/ring-buffer.c:66-85 | the byte at the read index is the oldest queued byte, and advancing the index drops exactly it |
| RingBuffers.FillAll | shared/src/core/ring-buffer.c:38-56 | writing a sequence into an empty buffer accepts exactly the first mask bytes and queues them in order |
| RingBuffers.DrainAll | shared/src/core/ring-buffer.c:66-85 | reading until empty returns the queue in FIFO order and leaves it empty |
| RingBuffers.FillThenDrain | shared/src/core/ring-buffer.c:38-85 | a buffer of size n accepts the first n - 1 writes, rejects the rest, and reads back what it accepted in order |
| RingBuffers.ReadUpTo | shared/src/core/uart.c:103-120 | reads min(len, queued) bytes, oldest first, and leaves the remainder queued |
| CoreUart.CrBeforeLfRoundTrip | shared/src/core/uart.c:31-46 | dropping the carriage returns inserted before line feeds gives back the original text |
| CoreUart.CrBeforeLfShape | shared/src/core/uart.c:31-46 | every line feed on the wire directly follows a carriage return |
| CoreUart.CrBeforeLfLength | shared/src/core/uart.c:31-46 | the wire text is longer than the text by exactly its number of line feeds |
| CoreUart.CrBeforeLfNeverStartsWithLf | shared/src/core/uart.c:31-46 | the wire text is empty iff the text is, and never starts with a line feed |
| CoreUart.WriteHook | shared/src/core/uart.c:31-46 | for stdout and stderr, sends the text with CR before each LF and returns len (0 and no sends for a negative len); any other descriptor gives -1 with errno EIO and no sends |
| CoreUart.UartWrite | shared/src/core/uart.c:78-84 | one blocking USART2 send per byte of data[..len], in order |
| CoreUart.UartWriteByte | shared/src/core/uart.c:91-94 | exactly one blocking USART2 send of the byte |
| CoreUart.Console.constructor | shared/src/core/uart.c:10-11 | the static zero-initialised ring buffer and 128-byte storage: not yet valid |
| CoreUart.Console.Setup | shared/src/core/uart.c:53-70 | sets the ring buffer up empty over the storage, and makes the clock, mode, flow-control, data-bits, baud, parity, stop-bits, RX-interrupt, NVIC and enable calls in source order |
| CoreUart.Console.ReceiveInterrupt | shared/src/core/uart.c:17-29 | on a received byte or an overrun the byte is appended when there is room, otherwise the queue is unchanged; the mask stays the same |
| CoreUart.Console.Read | shared/src/core/uart.c:103-120 | returns min(len, queued) bytes, oldest first, and drops them |
| CoreUart.Console.ReadByte | shared/src/core/uart.c:127-132 | the oldest byte, dropped; the caller's `garbage` byte when nothing is queued |
| CoreUart.Console.DataAvailable | shared/src/core/uart.c:140-143 | true iff bytes are queued |
| LocalMemory.GrowCapacity | app/inc/local-memory.h:22 | below 8 the new capacity is 8, otherwise it doubles; it always grows |
| LocalMemory.CapacityAfterIsPowerOfTwo | app/inc/local-memory.h:22 | from the initial 4 slots, n growths give 4 · 2^n slots |
| GpioControl.CreateGpioPin | app/src/gpio-control.c:24-34 | every field holds the argument of the same name |
| AdcControl.CreateAdcPin | app/src/adc-control.c:27-39 | every field holds its argument; the sample time is truncated to 16 bits |
| ClocksControl.CreateClock | app/src/clocks-control.c:24-27 | a new entry for the clock, disabled |
| ClocksControl.EnableIsIdempotent | app/src/clocks-control.c:34-44 | enabling leaves the clock on, calls the RCC only when it was off, and a second enable changes nothing |
| ClocksControl.DisableIsIdempotent | app/src/clocks-control.c:51-60 | disabling leaves the clock off, calls the RCC only when it was on, and a second disable changes nothing |
| ClocksControl.EnableThenDisable | app/src/clocks-control.c:34-60 | on an off clock, enable then disable restores it, with exactly one RCC enable and one RCC disable |
| ClocksControl.EnableClock | app/src/clocks-control.c:34-44 | only entry i changes, to its enabled form, with the enable calls of that entry |
| ClocksControl.DisableClock | app/src/clocks-control.c:51-60 | only entry i changes, to its disabled form, with the disable calls of that entry |
| UartControl.ActiveUart.constructor | app/src/uart-control.c:14 | the static zero-initialised active UART, whose ring buffer is not valid |
| UartControl.ActiveUart.GeneralUartIsr | app/src/uart-control.c:81-96 | only the active UART's ring buffer changes, with the same mask: a received byte or an overrun appends the byte when there is room |
| UartControl.CreateUartPeripheral | app/src/uart-control.c:33-63 | the controller holds the arguments, RX and TX as AF pins with no pull, and an empty valid ring buffer over fresh zeroed 128-byte storage; it becomes the active UART |
| UartControl.CurrentUartWrite | app/src/uart-control.c:104-110 | one blocking send on the UART's handle per byte of data[..len], in order |
| UartControl.CurrentUartWriteByte | app/src/uart-control.c:117-120 | exactly one blocking send of the byte on the UART's handle |
| UartControl.CurrentUartRead | app/src/uart-control.c:129-146 | min(len, queued) bytes, oldest first, read from the by-value copy |
| UartControl.CurrentUartReadByte | app/src/uart-control.c:153-158 | the oldest queued byte, or the caller's `garbage` byte when nothing is queued |
| UartControl.CurrentUartDataAvailable | app/src/uart-control.c:166 | true iff the indices differ, i.e. iff bytes are queued |
| PeripheralController.CreateStandardGpio | app/src/peripheral-controller.c:55-66 | an inactive GPIO peripheral: input mode for the input type, output mode otherwise, the given pull, AF 0 |
| PeripheralController.CreateStandardAdcPin | app/src/peripheral-controller.c:104-117 | an inactive ADC peripheral in analog mode built from the arguments |
| PeripheralController.CreateStandardUartUsart | app/src/peripheral-controller.c:192-208 | an inactive UART peripheral holding the new active UART controller, with an empty ring buffer |
| PeripheralController.DisableKeepsOnlyAdcActive | app/src/peripheral-controller.c:90 | after its disable function a peripheral is active iff it is an ADC |
| PeripheralController.GpioEnableEvents | app/src/peripheral-controller.c:26-43 | enabling a GPIO is one mode-setup call with its port, mode, pull and pin; disabling makes no call |
| PeripheralController.UartEnableOrder | app/src/peripheral-controller.c:124-173 | enabling a UART makes 13 calls ending with the NVIC enable and then the USART enable; disabling starts with the USART disable and includes the NVIC disable |
| PeripheralController.EnablePeripheral | app/src/peripheral-controller.c:26-207 | through the enable pointer: only entry i changes, it becomes active, with the calls of its kind |
| PeripheralController.DisablePeripheral | app/src/peripheral-controller.c:26-207 | through the disable pointer: only entry i changes, its status becomes what its kind's disable leaves, with the calls of its kind |
| PeripheralController.EnableStandardGpio | app/src/peripheral-controller.c:26-31 | entry i becomes active, with its mode-setup call |
| PeripheralController.DisableStandardGpio | app/src/peripheral-controller.c:38-43 | entry i becomes inactive; no hardware call |
| PeripheralController.EnableAdcPin | app/src/peripheral-controller.c:73-83 | entry i becomes active, with the analog mode setup, ADC power-off, scan-mode disable, channel sample time and power-on calls |
| PeripheralController.DisableAdcPin | app/src/peripheral-controller.c:90 | entry i's status is set to true; no hardware call |
| PeripheralController.EnableUart | app/src/peripheral-controller.c:124-160 | entry i becomes active, with both pins' setup, the USART configuration, the NVIC enable and the USART enable |
| PeripheralController.DisableUart | app/src/peripheral-controller.c:167-173 | entry i becomes inactive, with the USART disable, the NVIC disable and the RX-interrupt disable, in that order |
| BoardControl.FindClock | app/src/board-control.c:152-166 | found iff an entry has the clock; then the index is the first such entry and the status is its enabled flag; otherwise index 0, status false |
| BoardControl.FindClockIsEarliest | app/src/board-control.c:152-166 | the first entry with the clock is the one found, with its status |
| BoardControl.EnsureEnabledWithFreshLookup | app/src/board-control.c:199-212 | the clock block of createDigitalPin leaves the clock's first entry enabled, adds an entry iff there was none, changes no other entry, and calls the hardware iff the clock was not already on |
| BoardControl.UartSharedPinClockAddedTwice | app/src/board-control.c:286-327 | when RX and TX share a pin clock that has no entry, createUART appends two enabled entries for it |
| BoardControl.UartClocksEnabled | app/src/board-control.c:286-327 | after createUART's clock blocks, the USART, RX and TX clocks all have an enabled first entry |
| BoardControl.AnalogClocksEnabled | app/src/board-control.c:235-259 | after createAnalogPin's two clock blocks, the pin's clock and ADC1's clock both have an enabled first entry |
| BoardControl.StaleEnsureEnabled | app/src/board-control.c:307-327 | a clock block run on a list that has grown since its lookup still leaves the clock enabled and only extends the list |
| BoardControl.First | app/src/board-control.c:397-421 | the index of the first entry a scan matches, or none iff no entry matches |
| BoardControl.FirstIsEarliest | app/src/board-control.c:397-421 | an entry that matches, with no earlier match, is the one a scan finds |
| BoardControl.AdcCountZero | app/src/board-control.c:110-121 | the count of active ADC entries is 0 iff no entry is an active ADC |
| BoardControl.AdcCountPositive | app/src/board-control.c:110-121 | one active ADC entry makes the count positive |
| BoardControl.AllClocksOffSwitchesEnabledOnes | app/src/board-control.c:51-54 | deinit's clock loop calls the RCC exactly once per enabled entry, and only for enabled entries |
| BoardControl.DisableClocks | app/src/board-control.c:51-54 | every listed clock entry is disabled, in order, and the slots past the count are untouched |
| BoardControl.DisablePeripherals | app/src/board-control.c:58-62 | every listed peripheral goes through its own disable function, in order, and the slots past the count are untouched |
| BoardControl.BoardController.InitBoard | app/src/board-control.c:26-41 | empty clock and peripheral lists, each with capacity 4 |
| BoardControl.BoardController.DeinitBoard | app/src/board-control.c:49-66 | both counts become 0; the calls are all clock disables followed by all peripheral disables |
| BoardControl.BoardController.GrowClocks | app/src/board-control.c:75-84 | a new disabled entry for the clock is appended; capacity grows by GROW_CAPACITY exactly when the list was full; the peripherals are untouched |
| BoardControl.BoardController.GrowPeripherals | app/src/board-control.c:92-102 | the peripheral is appended; capacity grows by GROW_CAPACITY exactly when the list was full; the clocks are untouched |
| BoardControl.BoardController.AdcExists | app/src/board-control.c:110-121 | the number of active ADC entries; 0 iff none is an active ADC |
| BoardControl.BoardController.UartExists | app/src/board-control.c:131-142 | found iff some entry is an active UART; then its controller is returned, with a valid ring buffer |
| BoardControl.BoardController.ClockExists | app/src/board-control.c:152-166 | the answer of FindClock on the listed clocks |
| BoardControl.BoardController.DisableClockWithEnum | app/src/board-control.c:174-184 | only the first entry of the clock is disabled, with its disable calls; nothing happens when there is none |
| BoardControl.BoardController.EnsureClock | app/src/board-control.c:203-212 | runs one clock block: the list becomes EnsureEnabled of the old list, with the matching calls |
| BoardControl.BoardController.AddPeripheral | app/src/board-control.c:214-218 | the peripheral is appended in its enabled form, with its enable calls |
| BoardControl.BoardController.CreateDigitalPin | app/src/board-control.c:196-219 | runs one clock block for the pin's clock, after which its first entry is enabled, then appends the new GPIO peripheral, enabled, with the clock calls followed by its enable calls |
| BoardControl.BoardController.CreateAnalogPin | app/src/board-control.c:232-267 | runs the pin-clock and ADC1 clock blocks, after which both clocks' first entries are enabled, then appends the new ADC peripheral, enabled |
| BoardControl.BoardController.CreateUart | app/src/board-control.c:286-335 | runs the three clock blocks with their stale answers (the clocks become UartClocks of the old list), then appends the new UART peripheral, enabled, holding the new active UART, whose ring buffer is empty over freshly allocated storage |
| BoardControl.BoardController.UartClocksOn | app/src/board-control.c:286-327 | the three clock blocks of createUART: the clocks become UartClocks of the old list, with the matching calls |
| BoardControl.BoardController.Scan | app/src/board-control.c:397-421 | the index of the first listed entry the query matches, or none |
| BoardControl.BoardController.DisableEntry | app/src/board-control.c:525-559 | only entry k changes, to the status its disable function leaves, with its disable calls |
| BoardControl.BoardController.ReplaceEntry | app/src/board-control.c:525-559 | only entry k changes, to the new peripheral in its enabled form, with its enable calls |
| BoardControl.BoardController.PinExists | app/src/board-control.c:345-386 | the type of the first active entry that uses the pin; TYPE_NONE iff no active entry uses it |
| BoardControl.BoardController.MutateDigitalPin | app/src/board-control.c:397-421 | on the pin's first GPIO entry, nothing happens when it already has the type; otherwise it is rebuilt in place with its own clock and the new type and pull, enabled |
| BoardControl.BoardController.MutateAdcToDigital | app/src/board-control.c:433-458 | the pin's first ADC entry is rebuilt in place as an enabled GPIO; the clocks are unchanged |
| BoardControl.BoardController.KillPeripheralOrPin | app/src/board-control.c:467-512 | on the first active match: an ADC is left as it is; a GPIO becomes inactive; a UART becomes inactive and its USART clock's first entry is disabled |
| BoardControl.BoardController.MutateDigitalToAdc | app/src/board-control.c:525-559 | the pin's first GPIO entry is disabled and rebuilt in place as an enabled ADC pin, after making sure ADC1's clock is on |
| BoardControl.BoardController.ActionDigitalPin | app/src/board-control.c:571-629 | on the pin's first GPIO entry: a read of an input gives 1 iff the level is non-zero; set, clear and toggle of an output make that call; anything else gives 0 and no call |
| BoardControl.BoardController.ActionAnalogPin | app/src/board-control.c:639-663 | on the pin's first ADC entry: selects its channel, starts a conversion and returns the sample; 0 and no call when there is none |
| BoardControl.BoardController.ReadUartPort | app/src/board-control.c:673-688 | 0 bytes with no active UART or an empty copy; otherwise len copies of the copy's oldest queued byte |
| BoardControl.InterruptDataNeverReachesBoard | app/src/board-control.c:673-688 | on a new board with one UART, a byte received by the UART interrupt does not reach the board's copy, and readUARTPort returns 0 bytes |
| BoardControl.BoardController.WriteUartPort | app/src/board-control.c:698-709 | sends data[..len] on the first active UART and returns len; 0 and no sends when there is none |
| Tokens.TokenVector.Init | app/src/token.c:18-25 | an empty vector with 4 slots |
| Tokens.TokenVector.Append | app/src/token.c:46-56 | the token is appended; capacity grows by GROW_CAPACITY exactly when every slot was in use |
| Tokens.TokenVector.Size | app/src/token.c:64-67 | the number of tokens appended |
| Tokens.TokenVector.Get | app/src/token.c:75-87 | the token at the index |
| Tokens.TokenVector.Deinit | app/src/token.c:32-38 | no tokens and no slots remain |
| Interpreter.IsDigit | app/src/interpreter.c:16-19 | a digit has a digit value from 0 to 9, and is neither whitespace nor the terminating `'\0'` |
| Interpreter.IsAlpha | app/src/interpreter.c:21-25 | a letter or '_' is never a digit, whitespace or the terminating `'\0'`, so the scanner's branches are disjoint |
| Interpreter.CheckKeyword | app/src/interpreter.c:69-77 | gives the keyword's kind or a port-pin; for a keyword kind, the kind exactly when the lexeme is its first `start` characters followed by `rest` |
| Interpreter.IdentifierType | app/src/interpreter.c:79-106 | one of the five keyword kinds or a port-pin, a keyword kind only for a lexeme of 3 to 6 characters; `IdentifierTypeIsKeywordKind` proves it equals `KeywordKind` |
| Interpreter.Scanner.Peek | app/src/interpreter.c:5-8 | the character at the current position, `'\0'` past the end of the line |
| Interpreter.Scanner.IsAtEnd | app/src/interpreter.c:55-58 | true iff the current character is `'\0'`; when false, the position is inside the line |
| Interpreter.SkipBlanks | app/src/interpreter.c:27-46 | the end of the whitespace run: everything skipped is whitespace and the character reached is not |
| Interpreter.IdentifierEnd | app/src/interpreter.c:108-112 | the end of the identifier run: everything consumed is a letter, digit or '_' and the character reached is not |
| Interpreter.IdentifierTypeIsKeywordKind | app/src/interpreter.c:69-106 | the first-character dispatch recognises exactly the five keywords; every other identifier is a port-pin |
| Interpreter.TokenizeFromIsScanned | app/src/interpreter.c:159-187 | from any position, the tokens are lexemes in source order separated only by whitespace, ended by exactly one zero-length end-of-line token at the first '\0' |
| Interpreter.TokenizeIsScanned | app/src/interpreter.c:159-187 | a whole line scans into that shape |
| Interpreter.TokenizeEmitsOnlyScannerKinds | app/src/interpreter.c:79-106 | no pull, read, number or string token is ever produced |
| Interpreter.ExampleLine | app/src/interpreter.c:159-187 | an illustration of TokenizeIsScanned on one line: "output A5 \r\n" scans into the output keyword, the port-pin A5 and the end of line at index 12 |
| Interpreter.Scanner.Init | app/src/interpreter.c:49-53 | both positions at 0; the pending tokens are those of the whole line |
| Interpreter.Scanner.Advance | app/src/interpreter.c:10-14 | returns the current character and steps past it |
| Interpreter.Scanner.SkipWhitespace | app/src/interpreter.c:27-46 | the position moves to the end of the whitespace run |
| Interpreter.Scanner.MakeToken | app/src/interpreter.c:60-67 | a token of the kind spanning from the start to the current position |
| Interpreter.Scanner.Identifier | app/src/interpreter.c:108-112 | the position moves to the end of the identifier, whose token is classified by its lexeme |
| Interpreter.Scanner.ScanToken | app/src/interpreter.c:166-185 | one round of the loop yields the next pending token; at the end of line it was the last one, otherwise the position advances |
| Interpreter.Interpret | app/src/interpreter.c:159-187 | returns true with exactly the tokens of the line |
| ParserTables.AdcTableWellFormed | app/inc/parser.h:67-85 | 14 entries, no pin twice, no channel twice, every channel between 0 and 15 |
| ParserTables.UartTableWellFormed | app/inc/parser.h:89-120 | 10 entries, no pin twice, each a valid TX-or-RX line of USART1 with AF7 or USART6 with AF8 |
| ParserTables.InvalidUartPinHasNoRole | app/inc/parser.h:46-52 | the invalid descriptor is neither valid nor a TX or RX line |
| Parser.PortIndex | app/src/parser.c:29-47 | a port is found iff the letter is A to E or a to e, and it is one of the five ports |
| Parser.LowerCaseNamesSamePort | app/src/parser.c:29-47 | a lower-case letter names the same port as its upper-case form |
| Parser.SkipCSpace | app/src/parser.c:53 | strtoul's skip stops at the first character that is not C whitespace |
| Parser.ParsePortPin | app/src/parser.c:16-64 | succeeds iff the token names a port and a pin 0 to 15; the port is always written; the pin mask only when the number is at most 15, otherwise the caller's value stays |
| Parser.PortPinRoundTrip | app/src/parser.c:16-64 | a port letter followed by a pin number's decimal text decodes back to that port and pin |
| Parser.RejectsNonArgument | app/src/parser.c:129-133 | an argument of any other kind makes the line unacceptable |
| Parser.RejectsUnparsedPortPin | app/src/parser.c:93-101 | a port-pin that does not decode makes the line unacceptable |
| Parser.RejectsSecondPortPin | app/src/parser.c:93-111 | a second port-pin makes the line unacceptable |
| Parser.RejectsSecondPull | app/src/parser.c:112-128 | a second pull keyword makes the line unacceptable |
| Parser.AllArgumentsChecked | app/src/parser.c:84-135 | once all three arguments pass, the function runs off its end holding the decoded port, pin and pull |
| Parser.InputOutput | app/src/parser.c:67-136 | every return is false; it runs off its end, holding the decoded settings, iff the line has exactly three acceptable arguments |
| Parser.ParseTokens | app/src/parser.c:143-174 | always false |
| Parser.LexemeArgumentIsPortPin | app/src/parser.c:84-135 | a token the scanner emits can be an input/output argument only as a port-pin |
| Parser.ScannedLinesAreNeverAccepted | app/src/parser.c:67-136 | no line produced by the scanner is accepted by inputOutput |

## Left out

- Register access and libopencm3 are not modelled. Each configuring or driving call is an `Event` value. The hardware reads (`gpio_get`, `adc_eoc`, `adc_read_regular`, `usart_get_flag`, `usart_recv`) leave no `Event`, and what they return is a parameter.
- ActionAnalogPin: the `adc_eoc` busy-wait is not modelled; the converted value is the parameter `sample`.
- Interrupt concurrency is left out. `_write`, reads and the RX interrupt are modelled as atomic steps.
- `size_t` wrap-around of the counts and capacities is not modelled; the counts are unbounded `nat`.
- Failure of `malloc`/`realloc` is left out: allocation always succeeds.
- `free` is modelled as dropping the contents. Dangling pointers are not modelled.
- `printf` debug output is left out.
- UartControl.CreateUartPeripheral: the C points the ring buffer at a stack array that dies when the function returns. The model gives it fresh storage that lives on.
- app/inc/interpreter.h declares a second, stale `TokenType` and `Token`. Only those of token.h are modelled.
- The timer, system setup, `firmware.c` main loop and the bootloader are outside the core and are not part of this model.
- `_write` takes `char *`. Its bytes are modelled as unsigned bytes.
- Interpreter: the C scans the command line byte by byte (`char *source`). Each `char` of the model's `string` stands for one byte of the line, so a non-ASCII UTF-8 character is one `char` per byte, not one `char` per code point.
- Interpreter.Interpret: its unused `bc` and `length` parameters are dropped.
- Parser.InputOutput: its unused `bc` and `input_output` parameters are dropped.
- `parseTokensAndExecute` has only a prototype in parser.h and no body, so it is not modelled.
- Parser.StrToUL: `strtoul` is a library call. It is modelled as a pure function: C whitespace, one sign, decimal digits, saturation at ULONG_MAX, minus negating modulo 2^32. `errno` and `endptr` are not modelled.
- Tokens.TokenVector.Get: the source spins forever on an out-of-range index. The model excludes that case with `requires` instead.
- Parser.ParseTokens: requires a non-empty vector, because `getTokenVector` would spin forever on an empty one.
- Interpreter.Interpret: requires the line to scan into at most 20 tokens. The C writes past its 20-slot array with no check, and that overflow is not modelled.
- BoardControl.BoardController.CreateDigitalPin: requires the type to be GPIO input or output, so every entry's kind matches its controller. Other types are not modelled.
- BoardControl.BoardController.MutateDigitalPin: same requirement on the new type.
- BoardControl.BoardController.MutateAdcToDigital: same requirement on the new type.
- Dispatch through the function pointers is modelled as a `match` on the controller kind. The pointers themselves are not stored.
