/**
 * The board controller of app/src/board-control.c: the registry of everything the
 * firmware has configured. It owns two growable arrays, `peripherals` and `clocks`, each
 * with a count of entries in use and an allocated size. Entries are appended (growing the
 * array by `GROW_CAPACITY` when it is full), overwritten in place when a pin changes
 * function, and switched off in place; they are never removed. Every lookup scans from
 * index 0 and acts on the first entry that fits.
 */
module BoardControl {
  import opened Hardware
  import opened Wrappers
  import opened LocalMemory
  import opened GpioControl
  import opened AdcControl
  import opened ClocksControl
  import opened UartControl
  import opened PeripheralController
  import opened RingBuffers

  /* ---------- Clock lookups ---------- */

  /** `clockExistsReturn`: whether the clock has an entry, whether that entry is enabled,
      and where it is. */
  datatype ClockExistsReturn = ClockExistsReturn(found: bool, status: bool, index: nat)

  /** What clockExists reports for `cs`: the first entry with the clock's id. */
  function FindClock(cs: seq<ClockController>, clock: ClockId): (r: ClockExistsReturn)
    ensures r.found <==> exists k :: 0 <= k < |cs| && cs[k].clock == clock
    ensures r.found ==> r.index < |cs| && cs[r.index].clock == clock && r.status == cs[r.index].clockEnabled
    ensures r.found ==> forall k :: 0 <= k < r.index ==> cs[k].clock != clock
    ensures !r.found ==> !r.status && r.index == 0
  {
    if cs == [] then ClockExistsReturn(false, false, 0)
    else if cs[0].clock == clock then ClockExistsReturn(true, cs[0].clockEnabled, 0)
    else
      var r := FindClock(cs[1..], clock);
      if r.found then r.(index := r.index + 1) else r
  }

  /** The clocks after the block every create* function repeats for a clock it needs,
      given the answer `r` of an earlier clockExists: append it enabled when the answer
      was "absent", enable the entry the answer names when it was "disabled", else
      nothing. */
  function EnsureEnabled(cs: seq<ClockController>, clock: ClockId, r: ClockExistsReturn)
    : (after: seq<ClockController>)
    requires r.found ==> r.index < |cs|
    ensures |after| == |cs| + (if r.found then 0 else 1)
    ensures forall k :: 0 <= k < |cs| ==> after[k].clock == cs[k].clock
  {
    if !r.found then cs + [Enabled(CreateClock(clock))]
    else if !r.status then cs[r.index := Enabled(cs[r.index])]
    else cs
  }

  /** The hardware calls of that block: enableClock only touches the hardware for an
      entry that is off at the time of the call. */
  function EnsureEnabledEvents(cs: seq<ClockController>, clock: ClockId, r: ClockExistsReturn)
    : seq<Event>
    requires r.found ==> r.index < |cs|
  {
    if !r.found then ClocksControl.EnableEvents(CreateClock(clock))
    else if !r.status then ClocksControl.EnableEvents(cs[r.index])
    else []
  }

  /** With an up-to-date answer the block leaves the clock's first entry enabled, adds an
      entry only when there was none, changes no other entry, and touches the hardware
      exactly when the clock was not already on. */
  lemma EnsureEnabledWithFreshLookup(cs: seq<ClockController>, clock: ClockId)
    ensures var r := FindClock(cs, clock);
            var after := EnsureEnabled(cs, clock, r);
            FindClock(after, clock).found && FindClock(after, clock).status &&
            FindClock(after, clock).index == (if r.found then r.index else |cs|) &&
            (|after| == |cs| + 1 <==> !r.found) &&
            (forall k :: 0 <= k < |cs| && k != FindClock(after, clock).index ==> after[k] == cs[k]) &&
            (EnsureEnabledEvents(cs, clock, r) == [] <==> r.found && r.status)
  {
    var r := FindClock(cs, clock);
    var after := EnsureEnabled(cs, clock, r);
    if !r.found {
      assert after[|cs|].clock == clock;
    } else {
      assert after[r.index].clock == clock;
    }
  }

  /** The three clock blocks of createUART: all three clockExists answers are taken before
      any of the blocks runs. */
  function UartClocks(cs: seq<ClockController>, uartClock: ClockId, rxClock: ClockId, txClock: ClockId)
    : (after: seq<ClockController>)
  {
    var c1 := EnsureEnabled(cs, uartClock, FindClock(cs, uartClock));
    var c2 := EnsureEnabled(c1, rxClock, FindClock(cs, rxClock));
    EnsureEnabled(c2, txClock, FindClock(cs, txClock))
  }

  function UartClockEvents(cs: seq<ClockController>, uartClock: ClockId, rxClock: ClockId, txClock: ClockId)
    : seq<Event>
  {
    var c1 := EnsureEnabled(cs, uartClock, FindClock(cs, uartClock));
    var c2 := EnsureEnabled(c1, rxClock, FindClock(cs, rxClock));
    EnsureEnabledEvents(cs, uartClock, FindClock(cs, uartClock)) +
    EnsureEnabledEvents(c1, rxClock, FindClock(cs, rxClock)) +
    EnsureEnabledEvents(c2, txClock, FindClock(cs, txClock))
  }

  /** Because the answers are stale, a pin clock shared by RX and TX that had no entry
      gets two entries, both enabled. */
  lemma UartSharedPinClockAddedTwice(cs: seq<ClockController>, uartClock: ClockId, pinClock: ClockId)
    requires !FindClock(cs, pinClock).found && pinClock != uartClock
    ensures var after := UartClocks(cs, uartClock, pinClock, pinClock);
            |after| >= 2 && after[|after| - 2] == ClockController(pinClock, true) &&
            after[|after| - 1] == ClockController(pinClock, true)
  {
  }

  /** Every clock createUART names nevertheless ends with its first entry enabled, and the
      entries that were there keep their ids. */
  lemma UartClocksEnabled(cs: seq<ClockController>, uartClock: ClockId, rxClock: ClockId, txClock: ClockId)
    ensures var after := UartClocks(cs, uartClock, rxClock, txClock);
            FindClock(after, uartClock).status && FindClock(after, rxClock).status &&
            FindClock(after, txClock).status
  {
    var c1 := EnsureEnabled(cs, uartClock, FindClock(cs, uartClock));
    var c2 := EnsureEnabled(c1, rxClock, FindClock(cs, rxClock));
    var c3 := EnsureEnabled(c2, txClock, FindClock(cs, txClock));
    StaleEnsureEnabled(cs, cs, uartClock);
    StaleEnsureEnabled(cs, c1, rxClock);
    StaleEnsureEnabled(cs, c2, txClock);
    KeepsEnabled(c1, c2, uartClock);
    KeepsEnabled(c2, c3, uartClock);
    KeepsEnabled(c2, c3, rxClock);
  }

  /** The two clock blocks of createAnalogPin, each with its own up-to-date lookup, leave
      both the pin's clock and ADC1's clock with an enabled first entry. */
  lemma AnalogClocksEnabled(cs: seq<ClockController>, clock: ClockId)
    ensures var c1 := EnsureEnabled(cs, clock, FindClock(cs, clock));
            var c2 := EnsureEnabled(c1, RCC_ADC1, FindClock(c1, RCC_ADC1));
            FindClock(c2, clock).status && FindClock(c2, RCC_ADC1).status
  {
    var c1 := EnsureEnabled(cs, clock, FindClock(cs, clock));
    var c2 := EnsureEnabled(c1, RCC_ADC1, FindClock(c1, RCC_ADC1));
    StaleEnsureEnabled(cs, cs, clock);
    StaleEnsureEnabled(c1, c1, RCC_ADC1);
    KeepsEnabled(c1, c2, clock);
  }

  /** `later` extends `earlier` the way a run of clock blocks does: same ids on the
      common prefix, no entry enabled in `earlier` disabled in `later`, and every added
      entry enabled. */
  ghost predicate Extends(earlier: seq<ClockController>, later: seq<ClockController>)
  {
    |earlier| <= |later| &&
    (forall k :: 0 <= k < |earlier| ==> later[k].clock == earlier[k].clock &&
                                        (earlier[k].clockEnabled ==> later[k].clockEnabled)) &&
    (forall k :: |earlier| <= k < |later| ==> later[k].clockEnabled)
  }

  /** Running a clock block on a list that extends the one the answer was taken from still
      leaves the first entry of the clock enabled and extends that list. */
  lemma StaleEnsureEnabled(base: seq<ClockController>, cs: seq<ClockController>, clock: ClockId)
    requires Extends(base, cs)
    ensures var after := EnsureEnabled(cs, clock, FindClock(base, clock));
            FindClock(after, clock).status && Extends(cs, after) && Extends(base, after)
  {
    var r := FindClock(base, clock);
    var after := EnsureEnabled(cs, clock, r);
    var f := FindClock(after, clock);
    if r.found {
      assert after[r.index].clock == clock && after[r.index].clockEnabled;
      assert f.index == r.index;
    } else {
      assert after[|cs|].clock == clock;
      if f.index < |cs| {
        assert after[f.index] == cs[f.index];
      }
    }
  }

  /** An enabled first entry stays the enabled first entry in an extension. */
  lemma KeepsEnabled(cs: seq<ClockController>, later: seq<ClockController>, clock: ClockId)
    requires Extends(cs, later) && FindClock(cs, clock).status
    ensures FindClock(later, clock).status
  {
    var r := FindClock(cs, clock);
    assert later[r.index].clock == clock;
    assert FindClock(later, clock).index == r.index;
  }

  /** The clocks after disableClockWithEnum: the first entry with the id is disabled. */
  function DisableFirst(cs: seq<ClockController>, clock: ClockId): (after: seq<ClockController>)
    ensures |after| == |cs|
  {
    var r := FindClock(cs, clock);
    if r.found then cs[r.index := Disabled(cs[r.index])] else cs
  }

  function DisableFirstEvents(cs: seq<ClockController>, clock: ClockId): seq<Event>
  {
    var r := FindClock(cs, clock);
    if r.found then ClocksControl.DisableEvents(cs[r.index]) else []
  }

  /* ---------- Peripheral lookups ---------- */

  /** The pin a GPIO entry drives. */
  predicate GpioAt(p: Peripheral, port: u32, pin: u32)
  {
    IsGpioType(p.kind) && p.controller.Gpio? && p.controller.gpio.port == port && p.controller.gpio.pin == pin
  }

  /** The pin an ADC entry samples. */
  predicate AdcAt(p: Peripheral, port: u32, pin: u32)
  {
    p.kind == TypeAdc && p.controller.Adc? && p.controller.adc.port == port && p.controller.adc.pin == pin
  }

  /** A UART entry uses the pin as RX or as TX. */
  predicate UartAt(p: Peripheral, port: u32, pin: u32)
  {
    p.kind == TypeUart && p.controller.Uart? &&
    ((p.controller.uart.rx.port == port && p.controller.uart.rx.pin == pin) ||
     (p.controller.uart.tx.port == port && p.controller.uart.tx.pin == pin))
  }

  /** The UART test of killPeripheralOrPin, as written: the port must match, the pin is
      only tested for being non-zero. */
  predicate UartOnPort(p: Peripheral, port: u32)
  {
    p.kind == TypeUart && p.controller.Uart? &&
    ((p.controller.uart.rx.port == port && p.controller.uart.rx.pin != 0) ||
     (p.controller.uart.tx.port == port && p.controller.uart.tx.pin != 0))
  }

  /** What each of the board's scans looks for. */
  datatype Query =
    | ActiveClaim(port: u32, pin: u32)   // pinExists: an active entry using the pin
    | AnyGpio(port: u32, pin: u32)       // mutate*/action: a GPIO entry on the pin, active or not
    | AnyAdc(port: u32, pin: u32)        // ADC mutate/read: an ADC entry on the pin, active or not
    | ActiveKill(port: u32, pin: u32)    // killPeripheralOrPin
    | ActiveUart                         // uartExists

  predicate Matches(q: Query, p: Peripheral)
  {
    match q
    case ActiveClaim(port, pin) => p.status && (GpioAt(p, port, pin) || AdcAt(p, port, pin) || UartAt(p, port, pin))
    case AnyGpio(port, pin) => GpioAt(p, port, pin)
    case AnyAdc(port, pin) => AdcAt(p, port, pin)
    case ActiveKill(port, pin) => p.status && (AdcAt(p, port, pin) || GpioAt(p, port, pin) || UartOnPort(p, port))
    case ActiveUart => p.status && p.kind == TypeUart && p.controller.Uart?
  }

  /** The index the scan for `q` stops at: the first entry it selects. */
  function First(ps: seq<Peripheral>, q: Query): (r: Option<nat>)
    ensures r.Some? ==> r.value < |ps| && Matches(q, ps[r.value])
    ensures r.Some? ==> forall k :: 0 <= k < r.value ==> !Matches(q, ps[k])
    ensures r.None? <==> forall k :: 0 <= k < |ps| ==> !Matches(q, ps[k])
  {
    if ps == [] then None
    else if Matches(q, ps[0]) then Some(0)
    else match First(ps[1..], q)
      case None => None
      case Some(i) => Some(i + 1)
  }

  /** Entries the scan skips do not influence its answer: changing an entry that neither
      matches before nor after leaves the first match where it was. */
  lemma FirstIgnoresNonMatching(ps: seq<Peripheral>, q: Query, k: nat, p: Peripheral)
    requires k < |ps| && !Matches(q, ps[k]) && !Matches(q, p)
    ensures First(ps[k := p], q) == First(ps, q)
  {
    var qs := ps[k := p];
    var a := First(ps, q);
    var b := First(qs, q);
    if a.Some? {
      assert Matches(q, qs[a.value]);
    }
    if b.Some? {
      assert Matches(q, ps[b.value]);
    }
  }

  /** The type pinExists reports: the first active entry using the pin, else TYPE_NONE. */
  function ClaimType(ps: seq<Peripheral>, port: u32, pin: u32): PeripheralType
  {
    match First(ps, ActiveClaim(port, pin))
    case None => TypeNone
    case Some(k) => ps[k].kind
  }

  /** The number of active ADC entries (adcExists). */
  function AdcCount(ps: seq<Peripheral>): nat
  {
    if ps == [] then 0
    else AdcCount(ps[..|ps| - 1]) + (if ps[|ps| - 1].kind == TypeAdc && ps[|ps| - 1].status then 1 else 0)
  }

  /** adcExists is zero exactly when no entry is an active ADC. */
  lemma {:induction false} AdcCountZero(ps: seq<Peripheral>)
    ensures AdcCount(ps) == 0 <==> forall k :: 0 <= k < |ps| ==> !(ps[k].kind == TypeAdc && ps[k].status)
  {
    if ps != [] {
      var init := ps[..|ps| - 1];
      AdcCountZero(init);
      assert forall k :: 0 <= k < |init| ==> init[k] == ps[k];
    }
  }

  /** An entry that stays an active ADC keeps adcExists above zero. */
  lemma AdcCountPositive(ps: seq<Peripheral>, k: nat)
    requires k < |ps| && ps[k].kind == TypeAdc && ps[k].status
    ensures AdcCount(ps) > 0
  {
    AdcCountZero(ps);
  }

  /* ---------- Whole-board spans of hardware calls ---------- */

  /** The calls of deinitBoard's first loop: disableClock on every entry in order. */
  function AllClocksOffEvents(cs: seq<ClockController>): seq<Event>
  {
    if cs == [] then [] else AllClocksOffEvents(cs[..|cs| - 1]) + ClocksControl.DisableEvents(cs[|cs| - 1])
  }

  /** The first loop of deinitBoard: disableClock on each of the first `count` clocks, in
      order. Those clocks end disabled and the rest of the array is untouched. */
  method DisableClocks(clocks: array<ClockController>, count: nat) returns (ev: seq<Event>)
    requires count <= clocks.Length
    modifies clocks
    ensures ev == AllClocksOffEvents(old(clocks[..count]))
    ensures forall k :: 0 <= k < count ==> clocks[k] == Disabled(old(clocks[k]))
    ensures clocks[count..] == old(clocks[count..])
  {
    ghost var cs := clocks[..count];
    ev := [];
    var clock := 0;
    while clock < count
      invariant clock <= count
      invariant forall k :: 0 <= k < clock ==> clocks[k] == Disabled(old(clocks[k]))
      invariant forall k :: clock <= k < clocks.Length ==> clocks[k] == old(clocks[k])
      invariant ev == AllClocksOffEvents(cs[..clock])
    {
      assert cs[..clock + 1][..clock] == cs[..clock];
      var one := DisableClock(clocks, clock);
      ev := ev + one;
      clock := clock + 1;
    }
    assert cs[..count] == cs;
  }

  /** The second loop of deinitBoard: each of the first `count` peripherals' disable function,
      in order. */
  method DisablePeripherals(peripherals: array<Peripheral>, count: nat) returns (ev: seq<Event>)
    requires count <= peripherals.Length
    modifies peripherals
    ensures ev == AllPeripheralsOffEvents(old(peripherals[..count]))
    ensures forall k :: 0 <= k < count ==>
      peripherals[k] == old(peripherals[k]).(status := StatusAfterDisable(old(peripherals[k]).controller))
    ensures peripherals[count..] == old(peripherals[count..])
  {
    ghost var ps := peripherals[..count];
    ev := [];
    var peripheral := 0;
    while peripheral < count
      invariant peripheral <= count
      invariant forall k :: 0 <= k < peripheral ==>
        peripherals[k] == old(peripherals[k]).(status := StatusAfterDisable(old(peripherals[k]).controller))
      invariant forall k :: peripheral <= k < peripherals.Length ==> peripherals[k] == old(peripherals[k])
      invariant ev == AllPeripheralsOffEvents(ps[..peripheral])
    {
      assert ps[..peripheral + 1][..peripheral] == ps[..peripheral];
      var one := DisablePeripheral(peripherals, peripheral);
      ev := ev + one;
      peripheral := peripheral + 1;
    }
    assert ps[..count] == ps;
  }

  /** The calls of deinitBoard's second loop: every entry's disable function in order. */
  function AllPeripheralsOffEvents(ps: seq<Peripheral>): seq<Event>
  {
    if ps == [] then [] else AllPeripheralsOffEvents(ps[..|ps| - 1]) + PeripheralController.DisableEvents(ps[|ps| - 1].controller)
  }

  /** Only enabled clocks are switched off, once each, in array order. */
  lemma {:induction false} AllClocksOffSwitchesEnabledOnes(cs: seq<ClockController>)
    ensures |AllClocksOffEvents(cs)| == |set k | 0 <= k < |cs| && cs[k].clockEnabled|
    ensures forall e :: e in AllClocksOffEvents(cs) ==> exists k :: 0 <= k < |cs| && e == RccClockDisable(cs[k].clock) && cs[k].clockEnabled
  {
    if cs != [] {
      var init := cs[..|cs| - 1];
      AllClocksOffSwitchesEnabledOnes(init);
      var s := set k | 0 <= k < |cs| && cs[k].clockEnabled;
      var t := set k | 0 <= k < |init| && init[k].clockEnabled;
      if cs[|cs| - 1].clockEnabled {
        assert s == t + {|cs| - 1};
      } else {
        assert s == t;
      }
      forall e | e in AllClocksOffEvents(cs)
        ensures exists k :: 0 <= k < |cs| && e == RccClockDisable(cs[k].clock) && cs[k].clockEnabled
      {
        if e in AllClocksOffEvents(init) {
          var k :| 0 <= k < |init| && e == RccClockDisable(init[k].clock) && init[k].clockEnabled;
          assert cs[k] == init[k];
        } else {
          assert e == RccClockDisable(cs[|cs| - 1].clock);
        }
      }
    }
  }

  /** An unused array slot: malloc/realloc leave slots past the count unspecified and the
      code never reads them. */
  const UnusedPeripheral := Peripheral(TypeOther, Gpio(GpioPinController(0, 0, 0, 0, 0, 0)), false)
  const UnusedClock := ClockController(0, false)

  /** What every entry in use satisfies: its tag names its union member, and a UART's
      ring buffer is set up. */
  predicate WellFormed(p: Peripheral)
  {
    p.Tagged() && (p.controller.Uart? ==> p.controller.uart.rb.Valid())
  }

  class BoardController {
    var peripherals: array<Peripheral>
    var clocks: array<ClockController>
    var peripheralsCount: nat
    var clocksCount: nat
    var clocksSize: nat
    var peripheralsSize: nat

    ghost predicate Valid()
      reads this, peripherals
    {
      peripherals.Length == peripheralsSize && clocks.Length == clocksSize &&
      peripheralsCount <= peripheralsSize && clocksCount <= clocksSize &&
      forall k :: 0 <= k < peripheralsCount ==> WellFormed(peripherals[k])
    }

    /** The peripherals in use, in array order. */
    ghost function Peripherals(): seq<Peripheral>
      reads this, peripherals
      requires peripheralsCount <= peripherals.Length
    {
      peripherals[..peripheralsCount]
    }

    /** The clocks in use, in array order. */
    ghost function Clocks(): seq<ClockController>
      reads this, clocks
      requires clocksCount <= clocks.Length
    {
      clocks[..clocksCount]
    }

    /** initBoard: room for 4 of each, none in use. */
    constructor InitBoard()
      ensures Valid() && fresh(peripherals) && fresh(clocks)
      ensures clocksSize == 4 && peripheralsSize == 4 && peripheralsCount == 0 && clocksCount == 0
      ensures Peripherals() == [] && Clocks() == []
    {
      clocksSize := 4;
      peripheralsSize := 4;
      peripheralsCount := 0;
      clocksCount := 0;
      clocks := new ClockController[4](_ => UnusedClock);
      peripherals := new Peripheral[4](_ => UnusedPeripheral);
    }

    /** deinitBoard: disableClock on every clock, then every peripheral's disable function,
        then both counts to zero (the storage is freed, which is not modelled). */
    method DeinitBoard() returns (ev: seq<Event>)
      requires Valid()
      modifies this, clocks, peripherals
      ensures clocksCount == 0 && peripheralsCount == 0
      ensures ev == AllClocksOffEvents(old(Clocks())) + AllPeripheralsOffEvents(old(Peripherals()))
    {
      var offClocks := DisableClocks(clocks, clocksCount);
      clocksCount := 0;
      var offPeripherals := DisablePeripherals(peripherals, peripheralsCount);
      peripheralsCount := 0;
      ev := offClocks + offPeripherals;
    }

    /** growClocks: append a new, disabled clock, first growing the array when it is full. */
    method GrowClocks(clock: ClockId)
      requires Valid()
      modifies this, clocks
      ensures Valid() && Clocks() == old(Clocks()) + [CreateClock(clock)]
      ensures clocksSize == if old(clocksCount) == old(clocksSize) then GrowCapacity(old(clocksSize)) else old(clocksSize)
      ensures clocks == old(clocks) || fresh(clocks)
      ensures peripherals == old(peripherals) && peripheralsCount == old(peripheralsCount)
      ensures peripheralsSize == old(peripheralsSize)
    {
      if clocksCount == clocksSize {
        var oldSize := clocksSize;
        clocksSize := GrowCapacity(oldSize);
        var grown := new ClockController[clocksSize](_ => UnusedClock);
        forall k | 0 <= k < oldSize {
          grown[k] := clocks[k];
        }
        clocks := grown;
      }
      clocks[clocksCount] := CreateClock(clock);
      clocksCount := clocksCount + 1;
    }

    /** growPeripherals: append `periph`, first growing the array when it is full. */
    method GrowPeripherals(periph: Peripheral)
      requires Valid() && WellFormed(periph)
      modifies this, peripherals
      ensures Valid() && Peripherals() == old(Peripherals()) + [periph]
      ensures peripheralsSize == if old(peripheralsCount) == old(peripheralsSize) then GrowCapacity(old(peripheralsSize)) else old(peripheralsSize)
      ensures peripherals == old(peripherals) || fresh(peripherals)
      ensures clocks == old(clocks) && clocksCount == old(clocksCount) && clocksSize == old(clocksSize)
    {
      if peripheralsCount == peripheralsSize {
        var oldSize := peripheralsSize;
        peripheralsSize := GrowCapacity(oldSize);
        var grown := new Peripheral[peripheralsSize](_ => UnusedPeripheral);
        forall k | 0 <= k < oldSize {
          grown[k] := peripherals[k];
        }
        peripherals := grown;
      }
      peripherals[peripheralsCount] := periph;
      peripheralsCount := peripheralsCount + 1;
    }

    /** adcExists: how many entries are active ADCs. */
    method AdcExists() returns (adcCount: nat)
      requires Valid()
      ensures adcCount == AdcCount(Peripherals())
      ensures adcCount == 0 <==> forall k :: 0 <= k < peripheralsCount ==> !(peripherals[k].kind == TypeAdc && peripherals[k].status)
    {
      adcCount := 0;
      var periph := 0;
      while periph < peripheralsCount
        invariant periph <= peripheralsCount
        invariant adcCount == AdcCount(peripherals[..periph])
      {
        assert peripherals[..periph + 1][..periph] == peripherals[..periph];
        if peripherals[periph].kind == TypeAdc && peripherals[periph].status {
          adcCount := adcCount + 1;
        }
        periph := periph + 1;
      }
      AdcCountZero(Peripherals());
    }

    /** `current_periph->disablePeripheral(current_periph)` on entry k in use: only its
        active flag changes. */
    method DisableEntry(k: nat) returns (ev: seq<Event>)
      requires Valid() && k < peripheralsCount
      modifies peripherals
      ensures Valid()
      ensures Peripherals() == old(Peripherals())[k := old(peripherals[k]).(status := StatusAfterDisable(old(peripherals[k]).controller))]
      ensures ev == PeripheralController.DisableEvents(old(peripherals[k]).controller)
    {
      ev := DisablePeripheral(peripherals, k);
    }

    /** `*current_periph = pc; current_periph->enablePeripheral(current_periph);` on entry k
        in use: the entry becomes `pc`, active. */
    method ReplaceEntry(k: nat, pc: Peripheral) returns (ev: seq<Event>)
      requires Valid() && k < peripheralsCount && WellFormed(pc)
      modifies peripherals
      ensures Valid() && Peripherals() == old(Peripherals())[k := pc.(status := true)]
      ensures ev == PeripheralController.EnableEvents(pc.controller)
    {
      peripherals[k] := pc;
      ev := EnablePeripheral(peripherals, k);
    }

    /** The scan every lookup over the peripherals performs: the index of the first entry
        in use that `q` selects. */
    method Scan(q: Query) returns (r: Option<nat>)
      requires Valid()
      ensures r == First(Peripherals(), q)
    {
      var periph := 0;
      while periph < peripheralsCount
        invariant periph <= peripheralsCount
        invariant forall k :: 0 <= k < periph ==> !Matches(q, peripherals[k])
      {
        if Matches(q, peripherals[periph]) {
          FirstIsEarliest(Peripherals(), q, periph);
          return Some(periph);
        }
        periph := periph + 1;
      }
      assert forall k :: 0 <= k < |Peripherals()| ==> Peripherals()[k] == peripherals[k];
      return None;
    }

    /** uartExists: a copy of the first active UART's controller. */
    method UartExists() returns (found: bool, currentUart: UartController)
      requires Valid()
      ensures found <==> First(Peripherals(), ActiveUart).Some?
      ensures found ==> currentUart == Peripherals()[First(Peripherals(), ActiveUart).value].controller.uart
      ensures found ==> currentUart.rb.Valid()
    {
      var r := Scan(ActiveUart);
      if r.Some? {
        return true, peripherals[r.value].controller.uart;
      }
      // `*current_uart` is left as the caller's uninitialised local
      var none := new byte[0];
      var pin := GpioPinController(0, 0, 0, 0, 0, 0);
      return false, UartController(0, 0, pin, pin, 0, RingFields(none, 0, 0, 0), none, 0);
    }

    /** clockExists. */
    method ClockExists(clock: ClockId) returns (r: ClockExistsReturn)
      requires Valid()
      ensures r == FindClock(Clocks(), clock)
    {
      var clockC := 0;
      while clockC < clocksCount
        invariant clockC <= clocksCount
        invariant forall k :: 0 <= k < clockC ==> clocks[k].clock != clock
      {
        if clocks[clockC].clock == clock && clocks[clockC].clockEnabled {
          FindClockIsEarliest(Clocks(), clock, clockC);
          return ClockExistsReturn(true, true, clockC);
        }
        if clocks[clockC].clock == clock && !clocks[clockC].clockEnabled {
          FindClockIsEarliest(Clocks(), clock, clockC);
          return ClockExistsReturn(true, false, clockC);
        }
        clockC := clockC + 1;
      }
      assert forall k :: 0 <= k < |Clocks()| ==> Clocks()[k] == clocks[k];
      return ClockExistsReturn(false, false, 0);
    }

    /** disableClockWithEnum: disableClock on the first entry with the id, whatever its
        state; nothing when there is none. */
    method DisableClockWithEnum(clock: ClockId) returns (ev: seq<Event>)
      requires Valid()
      modifies clocks
      ensures Valid() && Clocks() == DisableFirst(old(Clocks()), clock)
      ensures ev == DisableFirstEvents(old(Clocks()), clock)
    {
      var clockC := 0;
      while clockC < clocksCount
        invariant clockC <= clocksCount
        invariant forall k :: 0 <= k < clockC ==> clocks[k].clock != clock
      {
        if clocks[clockC].clock == clock {
          FindClockIsEarliest(Clocks(), clock, clockC);
          ev := DisableClock(clocks, clockC);
          assert Clocks() == old(Clocks())[clockC := Disabled(old(clocks[clockC]))];
          return;
        }
        clockC := clockC + 1;
      }
      assert forall k :: 0 <= k < |Clocks()| ==> Clocks()[k] == clocks[k];
      ev := [];
    }

    /** The clock block a create* function repeats, acting on an answer `r` of clockExists. */
    method EnsureClock(clock: ClockId, r: ClockExistsReturn) returns (ev: seq<Event>)
      requires Valid() && (r.found ==> r.index < clocksCount)
      modifies this, clocks
      ensures Valid() && Clocks() == EnsureEnabled(old(Clocks()), clock, r)
      ensures ev == EnsureEnabledEvents(old(Clocks()), clock, r)
      ensures clocksSize == if !r.found && old(clocksCount) == old(clocksSize) then GrowCapacity(old(clocksSize)) else old(clocksSize)
      ensures clocks == old(clocks) || fresh(clocks)
      ensures peripherals == old(peripherals) && peripheralsCount == old(peripheralsCount)
      ensures peripheralsSize == old(peripheralsSize)
    {
      ev := [];
      if !r.found {
        GrowClocks(clock);
        ev := EnableClock(clocks, clocksCount - 1);
        assert Clocks() == old(Clocks()) + [Enabled(CreateClock(clock))];
      }
      if r.found && !r.status {
        ev := EnableClock(clocks, r.index);
        assert Clocks() == old(Clocks())[r.index := Enabled(old(Clocks())[r.index])];
      }
    }

    /* ---------- Operations ---------- */

    /** The two statements closing every create* function: append `pc`, then run its
        enable function on the new last entry. */
    method AddPeripheral(pc: Peripheral) returns (ev: seq<Event>)
      requires Valid() && WellFormed(pc)
      modifies this, peripherals
      ensures Valid() && Peripherals() == old(Peripherals()) + [pc.(status := true)]
      ensures ev == PeripheralController.EnableEvents(pc.controller)
      ensures peripheralsSize == if old(peripheralsCount) == old(peripheralsSize) then GrowCapacity(old(peripheralsSize)) else old(peripheralsSize)
      ensures clocks == old(clocks) && clocksCount == old(clocksCount) && clocksSize == old(clocksSize)
    {
      GrowPeripherals(pc);
      ghost var grown := Peripherals();
      ev := EnablePeripheral(peripherals, peripheralsCount - 1);
      assert Peripherals() == grown[|grown| - 1 := pc.(status := true)];
    }

    /** createDigitalPin: make sure the pin's clock is on, then append the pin, enabled. */
    method CreateDigitalPin(port: u32, pin: u32, clock: ClockId, inputOutput: PeripheralType, pupd: u8)
      returns (ev: seq<Event>)
      requires Valid() && IsGpioType(inputOutput)
      modifies this, peripherals, clocks
      ensures Valid()
      ensures Clocks() == EnsureEnabled(old(Clocks()), clock, FindClock(old(Clocks()), clock))
      ensures FindClock(Clocks(), clock).status
      ensures var pc := CreateStandardGpio(port, pin, clock, inputOutput, pupd);
              Peripherals() == old(Peripherals()) + [pc.(status := true)] &&
              ev == EnsureEnabledEvents(old(Clocks()), clock, FindClock(old(Clocks()), clock)) +
                    PeripheralController.EnableEvents(pc.controller)
      ensures peripheralsSize == if old(peripheralsCount) == old(peripheralsSize) then GrowCapacity(old(peripheralsSize)) else old(peripheralsSize)
    {
      EnsureEnabledWithFreshLookup(Clocks(), clock);
      var clockExists := ClockExists(clock);
      ev := EnsureClock(clock, clockExists);
      var pc := CreateStandardGpio(port, pin, clock, inputOutput, pupd);
      var on := AddPeripheral(pc);
      ev := ev + on;
    }

    /** createAnalogPin: make sure the pin's clock and then ADC1's clock are on (each with
        its own up-to-date lookup), then append the ADC pin, enabled. */
    method CreateAnalogPin(port: u32, pin: u32, clock: ClockId, sampleTime: u32, adcPort: u32, adcChannel: u8)
      returns (ev: seq<Event>)
      requires Valid()
      modifies this, peripherals, clocks
      ensures Valid()
      ensures var c1 := EnsureEnabled(old(Clocks()), clock, FindClock(old(Clocks()), clock));
              Clocks() == EnsureEnabled(c1, RCC_ADC1, FindClock(c1, RCC_ADC1)) &&
              var pc := CreateStandardAdcPin(port, pin, clock, RCC_ADC1, sampleTime, adcPort, adcChannel);
              Peripherals() == old(Peripherals()) + [pc.(status := true)] &&
              ev == EnsureEnabledEvents(old(Clocks()), clock, FindClock(old(Clocks()), clock)) +
                    EnsureEnabledEvents(c1, RCC_ADC1, FindClock(c1, RCC_ADC1)) +
                    PeripheralController.EnableEvents(pc.controller)
      ensures FindClock(Clocks(), clock).status && FindClock(Clocks(), RCC_ADC1).status
      ensures peripheralsSize == if old(peripheralsCount) == old(peripheralsSize) then GrowCapacity(old(peripheralsSize)) else old(peripheralsSize)
    {
      AnalogClocksEnabled(Clocks(), clock);
      var clockExists := ClockExists(clock);
      ev := EnsureClock(clock, clockExists);
      var adcClockExists := ClockExists(RCC_ADC1);
      var more := EnsureClock(RCC_ADC1, adcClockExists);
      ev := ev + more;
      var pc := CreateStandardAdcPin(port, pin, clock, RCC_ADC1, sampleTime, adcPort, adcChannel);
      var on := AddPeripheral(pc);
      ev := ev + on;
    }

    /** createUART: look up the UART clock and both pin clocks, then run the three clock
        blocks on those answers, then append the UART, enabled. The controller appended is
        the one createUARTPeripheral recorded as the active UART. */
    method CreateUart(active: ActiveUart, handle: u32, uartClock: ClockId, baudrate: u32,
                      rxPort: u32, txPort: u32, rxPin: u32, txPin: u32,
                      rxClock: ClockId, txClock: ClockId, rxAfMode: u8, txAfMode: u8, nvicEntry: int)
      returns (ev: seq<Event>)
      requires Valid()
      modifies this, peripherals, clocks, active
      ensures Valid()
      ensures Clocks() == UartClocks(old(Clocks()), uartClock, rxClock, txClock)
      ensures Peripherals() == old(Peripherals()) + [Peripheral(TypeUart, Uart(active.current), true)]
      ensures ev == UartClockEvents(old(Clocks()), uartClock, rxClock, txClock) +
                    PeripheralController.EnableEvents(Uart(active.current))
      ensures active.current.handle == handle && active.current.uartClock == uartClock
      ensures active.current.baudrate == baudrate && active.current.nvicEntry == nvicEntry
      ensures active.current.rx == GpioPinController(rxPort, rxPin, rxClock, GPIO_MODE_AF, rxAfMode, GPIO_PUPD_NONE)
      ensures active.current.tx == GpioPinController(txPort, txPin, txClock, GPIO_MODE_AF, txAfMode, GPIO_PUPD_NONE)
      ensures active.current.rb.Valid() && active.current.rb.Contents() == []
      ensures fresh(active.current.rb.buffer)
      ensures peripheralsSize == if old(peripheralsCount) == old(peripheralsSize) then GrowCapacity(old(peripheralsSize)) else old(peripheralsSize)
    {
      ev := UartClocksOn(uartClock, rxClock, txClock);
      var pc := CreateStandardUartUsart(active, handle, uartClock, baudrate, rxPort, txPort, rxPin, txPin,
                                        rxClock, txClock, rxAfMode, txAfMode, nvicEntry);
      var on := AddPeripheral(pc);
      ev := ev + on;
    }

    /** The clock part of createUART: three clockExists answers first, then the three
        clock blocks acting on them. */
    method UartClocksOn(uartClock: ClockId, rxClock: ClockId, txClock: ClockId) returns (ev: seq<Event>)
      requires Valid()
      modifies this, clocks
      ensures Valid() && Clocks() == UartClocks(old(Clocks()), uartClock, rxClock, txClock)
      ensures ev == UartClockEvents(old(Clocks()), uartClock, rxClock, txClock)
      ensures peripherals == old(peripherals) && peripheralsCount == old(peripheralsCount)
      ensures peripheralsSize == old(peripheralsSize)
    {
      ghost var cs := Clocks();
      var uartClockExists := ClockExists(uartClock);
      var rxClockExists := ClockExists(rxClock);
      var txClockExists := ClockExists(txClock);
      ev := EnsureClock(uartClock, uartClockExists);
      ghost var c1 := Clocks();
      var more := EnsureClock(rxClock, rxClockExists);
      ghost var c2 := Clocks();
      ev := ev + more;
      more := EnsureClock(txClock, txClockExists);
      ev := ev + more;
    }

    /** pinExists: the type of the first active entry using the pin (a UART uses both its
        RX and its TX pin), TYPE_NONE when there is none. Inactive entries are skipped. */
    method PinExists(port: u32, pin: u32) returns (t: PeripheralType)
      requires Valid()
      ensures t == ClaimType(Peripherals(), port, pin)
      ensures t == TypeNone <==> forall k :: 0 <= k < peripheralsCount ==> !Matches(ActiveClaim(port, pin), peripherals[k])
      ensures t != TypeNone ==> exists k :: 0 <= k < peripheralsCount && peripherals[k].status && peripherals[k].kind == t
    {
      var r := Scan(ActiveClaim(port, pin));
      if r.Some? {
        return peripherals[r.value].kind;
      }
      return TypeNone;
    }

    /** mutateDigitalPin: on the first GPIO entry of the pin, active or not, do nothing when
        it already has the requested type (whatever its pull); otherwise disable it and
        rebuild it in place with its own clock and the new type and pull, enabled. */
    method MutateDigitalPin(port: u32, pin: u32, newType: PeripheralType, newPupd: u8)
      returns (ev: seq<Event>)
      requires Valid() && IsGpioType(newType)
      modifies peripherals
      ensures Valid()
      ensures var r := First(old(Peripherals()), AnyGpio(port, pin));
              if r.None? || old(Peripherals())[r.value].kind == newType then
                Peripherals() == old(Peripherals()) && ev == []
              else
                var pc := CreateStandardGpio(port, pin, old(Peripherals())[r.value].controller.gpio.clock, newType, newPupd);
                Peripherals() == old(Peripherals())[r.value := pc.(status := true)] &&
                ev == PeripheralController.EnableEvents(pc.controller)
    {
      var r := Scan(AnyGpio(port, pin));
      if r.None? {
        return [];
      }
      var k := r.value;
      if peripherals[k].kind == newType {
        return [];
      }
      var clock := peripherals[k].controller.gpio.clock;
      var off := DisableEntry(k);
      var on := ReplaceEntry(k, CreateStandardGpio(port, pin, clock, newType, newPupd));
      ev := off + on;
    }

    /** mutateADCToDigital: rebuild the first ADC entry of the pin, active or not, in place
        as an enabled GPIO. The ADC clock would be disabled if no active ADC remained, but
        disableADCPin has just left this entry active, so it never is. */
    method MutateAdcToDigital(port: u32, pin: u32, clock: ClockId, inputOutput: PeripheralType, pupd: u8)
      returns (ev: seq<Event>)
      requires Valid() && IsGpioType(inputOutput)
      modifies peripherals
      ensures Valid() && Clocks() == old(Clocks())
      ensures var r := First(old(Peripherals()), AnyAdc(port, pin));
              if r.None? then
                Peripherals() == old(Peripherals()) && ev == []
              else
                var pc := CreateStandardGpio(port, pin, clock, inputOutput, pupd);
                Peripherals() == old(Peripherals())[r.value := pc.(status := true)] &&
                ev == PeripheralController.EnableEvents(pc.controller)
    {
      var r := Scan(AnyAdc(port, pin));
      if r.None? {
        return [];
      }
      var k := r.value;
      var off := DisableEntry(k);
      var adcCount := AdcExists();
      AdcCountPositive(Peripherals(), k);
      if adcCount == 0 {
        assert false;
      }
      var on := ReplaceEntry(k, CreateStandardGpio(port, pin, clock, inputOutput, pupd));
      ev := off + on;
    }

    /** killPeripheralOrPin: disable the first active entry that matches. An ADC is matched
        by its pin and stays active, and the ADC clock is never disabled (adcExists still
        counts it); a GPIO is matched by its pin and becomes inactive; a UART is matched by
        the port of RX or TX with any non-zero pin, becomes inactive, and the first entry
        of its UART clock is disabled. */
    method KillPeripheralOrPin(port: u32, pin: u32) returns (ev: seq<Event>)
      requires Valid()
      modifies peripherals, clocks
      ensures Valid()
      ensures var r := First(old(Peripherals()), ActiveKill(port, pin));
              if r.None? || old(Peripherals())[r.value].kind == TypeAdc then
                Peripherals() == old(Peripherals()) && Clocks() == old(Clocks()) && ev == []
              else if old(Peripherals())[r.value].kind == TypeUart then
                var u := old(Peripherals())[r.value].controller.uart;
                Peripherals() == old(Peripherals())[r.value := old(Peripherals())[r.value].(status := false)] &&
                Clocks() == DisableFirst(old(Clocks()), u.uartClock) &&
                ev == PeripheralController.DisableEvents(Uart(u)) + DisableFirstEvents(old(Clocks()), u.uartClock)
              else
                Peripherals() == old(Peripherals())[r.value := old(Peripherals())[r.value].(status := false)] &&
                Clocks() == old(Clocks()) && ev == []
    {
      var r := Scan(ActiveKill(port, pin));
      if r.None? {
        return [];
      }
      var k := r.value;
      if peripherals[k].kind == TypeAdc {
        ev := DisableEntry(k);
        var adcCount := AdcExists();
        AdcCountPositive(Peripherals(), k);
        if adcCount == 0 {
          assert false;
        }
        assert Peripherals() == old(Peripherals());
        return;
      }
      if IsGpioType(peripherals[k].kind) {
        ev := DisableEntry(k);
        return;
      }
      var uartClock := peripherals[k].controller.uart.uartClock;
      ev := DisableEntry(k);
      var off := DisableClockWithEnum(uartClock);
      ev := ev + off;
    }

    /** mutateDigitalToADC: disable the first GPIO entry of the pin, active or not, make
        sure ADC1's clock is on, and rebuild the entry in place as an enabled ADC pin. */
    method MutateDigitalToAdc(port: u32, pin: u32, clock: ClockId, sampleTime: u32, adcPort: u32, adcChannel: u8)
      returns (ev: seq<Event>)
      requires Valid()
      modifies this, peripherals, clocks
      ensures Valid() && peripheralsCount == old(peripheralsCount) && peripheralsSize == old(peripheralsSize)
      ensures var r := First(old(Peripherals()), AnyGpio(port, pin));
              if r.None? then
                Peripherals() == old(Peripherals()) && Clocks() == old(Clocks()) && ev == []
              else
                var pc := CreateStandardAdcPin(port, pin, clock, RCC_ADC1, sampleTime, adcPort, adcChannel);
                Peripherals() == old(Peripherals())[r.value := pc.(status := true)] &&
                Clocks() == EnsureEnabled(old(Clocks()), RCC_ADC1, FindClock(old(Clocks()), RCC_ADC1)) &&
                ev == EnsureEnabledEvents(old(Clocks()), RCC_ADC1, FindClock(old(Clocks()), RCC_ADC1)) +
                      PeripheralController.EnableEvents(pc.controller)
    {
      var r := Scan(AnyGpio(port, pin));
      if r.None? {
        return [];
      }
      var k := r.value;
      assert GpioAt(Peripherals()[k], port, pin);
      var off := DisableEntry(k);
      var adcClockExists := ClockExists(RCC_ADC1);
      var clocksOn := EnsureClock(RCC_ADC1, adcClockExists);
      var on := ReplaceEntry(k, CreateStandardAdcPin(port, pin, clock, RCC_ADC1, sampleTime, adcPort, adcChannel));
      ev := off + clocksOn + on;
    }

    /** actionDigitalPin on the first GPIO entry of the pin, active or not: a read of an
        input gives 1 when the level read (`level`) is non-zero and 0 otherwise; set, clear
        and toggle drive an output; every other combination does nothing and gives 0. */
    method ActionDigitalPin(port: u32, pin: u32, action: GpioAction, level: u16) returns (r: u16, ev: seq<Event>)
      requires Valid()
      ensures var f := First(Peripherals(), AnyGpio(port, pin));
              if f.None? then r == 0 && ev == []
              else if Peripherals()[f.value].kind == TypeGpioInput then
                ev == [] && r == (if action == ActionRead && level > 0 then 1 else 0)
              else
                r == 0 && ev == OutputEvents(action, port, pin)
      ensures r <= 1 && (r == 1 ==> action == ActionRead)
    {
      var f := Scan(AnyGpio(port, pin));
      if f.None? {
        return 0, [];
      }
      ev := [];
      if peripherals[f.value].kind == TypeGpioInput {
        if action == ActionRead {
          var pinResult: u16 := if level > 0 then 1 else 0;
          return pinResult, [];
        }
        return 0, [];
      }
      match action {
        case ActionSet => ev := [GpioSet(port, pin)];
        case ActionClear => ev := [GpioClear(port, pin)];
        case ActionToggle => ev := [GpioToggle(port, pin)];
        case ActionRead => ev := [];
      }
      return 0, ev;
    }

    /** actionAnalogPin on the first ADC entry of the pin, active or not: select its channel,
        start a conversion and return the converted value (`sample`); 0 when there is none. */
    method ActionAnalogPin(port: u32, pin: u32, sample: u16) returns (r: u16, ev: seq<Event>)
      requires Valid()
      ensures var f := First(Peripherals(), AnyAdc(port, pin));
              if f.None? then r == 0 && ev == []
              else r == sample &&
                   ev == [AdcSetRegularSequence(ADC1, 1, Peripherals()[f.value].controller.adc.adcChannel),
                          AdcStartConversionRegular(ADC1)]
    {
      var f := Scan(AnyAdc(port, pin));
      if f.None? {
        return 0, [];
      }
      var channel := peripherals[f.value].controller.adc.adcChannel;
      ev := [AdcSetRegularSequence(ADC1, 1, channel), AdcStartConversionRegular(ADC1)];
      r := sample;
    }

    /** readUARTPort: with no active UART, 0. Otherwise, while the copy of the first active
        UART reports data and fewer than len bytes are taken, take one byte from a fresh
        copy of it. Since no copy's read index is ever written back, an empty buffer gives
        0 bytes and a non-empty one would give len copies of its oldest byte. The board's
        copy is taken, empty, when createUART runs, and the receive interrupt only fills
        `currently_active_uart`, so the copy the board reads stays empty
        (InterruptDataNeverReachesBoard). */
    method ReadUartPort(len: u32) returns (count: u32, data: seq<byte>)
      requires Valid()
      ensures count <= len && |data| == count as int
      ensures var f := First(Peripherals(), ActiveUart);
              if f.None? then count == 0
              else
                var queued := Peripherals()[f.value].controller.uart.rb.Contents();
                if queued == [] then count == 0 else count == len && data == seq(len as int, _ => queued[0])
    {
      var found, uartToRead := UartExists();
      if !found {
        return 0, [];
      }
      count := 0;
      data := [];
      var available := CurrentUartDataAvailable(uartToRead);
      while available && count < len
        invariant count <= len && |data| == count as int
        invariant available <==> uartToRead.rb.Contents() != []
        invariant uartToRead.rb.Contents() == [] ==> count == 0
        invariant forall k :: 0 <= k < count as int ==> data[k] == uartToRead.rb.Contents()[0]
      {
        var b := CurrentUartReadByte(uartToRead, 0);
        data := data + [b];
        count := count + 1;
        available := CurrentUartDataAvailable(uartToRead);
      }
      if uartToRead.rb.Contents() != [] {
        ghost var front := uartToRead.rb.Contents()[0];
        assert data == seq(len as int, _ => front);
      }
    }

    /** writeUARTPort: send data[..len] on the first active UART and return len; 0 and no
        calls when there is no active UART. */
    method WriteUartPort(data: seq<byte>, len: u32) returns (r: u32, ev: seq<Event>)
      requires Valid() && len as int <= |data|
      ensures var f := First(Peripherals(), ActiveUart);
              if f.None? then r == 0 && ev == []
              else r == len && ev == SendAll(Peripherals()[f.value].controller.uart.handle, data[..len])
    {
      var found, uartToWrite := UartExists();
      if !found {
        return 0, [];
      }
      ev := CurrentUartWrite(uartToWrite, data, len);
      assert ev == SendAll(uartToWrite.handle, data[..len]);
      r := len;
    }
  }

  /** The calls actionDigitalPin makes on an output. */
  function OutputEvents(action: GpioAction, port: u32, pin: u32): seq<Event>
  {
    match action
    case ActionSet => [GpioSet(port, pin)]
    case ActionClear => [GpioClear(port, pin)]
    case ActionToggle => [GpioToggle(port, pin)]
    case ActionRead => []
  }

  /** The first index that satisfies `q` with none before it is what First reports. */
  lemma FirstIsEarliest(ps: seq<Peripheral>, q: Query, k: nat)
    requires k < |ps| && Matches(q, ps[k]) && forall j :: 0 <= j < k ==> !Matches(q, ps[j])
    ensures First(ps, q) == Some(k)
  {
  }

  lemma FindClockIsEarliest(cs: seq<ClockController>, clock: ClockId, k: nat)
    requires k < |cs| && cs[k].clock == clock && forall j :: 0 <= j < k ==> cs[j].clock != clock
    ensures FindClock(cs, clock) == ClockExistsReturn(true, cs[k].clockEnabled, k)
  {
  }

  /** The board keeps its own copy of the UART controller, taken when createUART runs, while
      the receive interrupt pushes into `currently_active_uart`. So on a fresh board with one
      UART, whatever byte arrives, readUARTPort reads nothing. */
  method InterruptDataNeverReachesBoard(handle: u32, uartClock: ClockId, baudrate: u32,
                                         rxPort: u32, txPort: u32, rxPin: u32, txPin: u32,
                                         rxClock: ClockId, txClock: ClockId, rxAfMode: u8, txAfMode: u8,
                                         nvicEntry: int, received: u16, len: u32)
    returns (count: u32, data: seq<byte>)
    ensures count == 0 && data == []
  {
    var active := new UartControl.ActiveUart();
    var bc := new BoardController.InitBoard();
    var ev := bc.CreateUart(active, handle, uartClock, baudrate, rxPort, txPort, rxPin, txPin,
                            rxClock, txClock, rxAfMode, txAfMode, nvicEntry);
    ghost var copy := active.current;
    RingBuffers.ContentsLength(copy.rb);
    assert copy.rb.readIndex == copy.rb.writeIndex;
    active.GeneralUartIsr(false, true, received);
    assert bc.Peripherals() == [Peripheral(TypeUart, Uart(copy), true)];
    assert First(bc.Peripherals(), ActiveUart) == Some(0);
    count, data := bc.ReadUartPort(len);
  }
}
