/**
 * The peripheral clock gate of app/src/clocks-control.c: a clock id and whether this
 * firmware has turned it on. Enabling and disabling act on an element of the board's
 * clock array in place and only touch the hardware on a real change.
 */
module ClocksControl {
  import opened Hardware

  datatype ClockController = ClockController(clock: ClockId, clockEnabled: bool)

  /** create_clock: the given clock, not yet enabled. */
  function CreateClock(clock: ClockId): (c: ClockController)
    ensures c.clock == clock && !c.clockEnabled
  {
    ClockController(clock, false)
  }

  /** The state and hardware calls of enableClock on `c`. */
  function Enabled(c: ClockController): ClockController
  {
    c.(clockEnabled := true)
  }

  function EnableEvents(c: ClockController): seq<Event>
  {
    if c.clockEnabled then [] else [RccClockEnable(c.clock)]
  }

  /** The state and hardware calls of disableClock on `c`. */
  function Disabled(c: ClockController): ClockController
  {
    c.(clockEnabled := false)
  }

  function DisableEvents(c: ClockController): seq<Event>
  {
    if c.clockEnabled then [RccClockDisable(c.clock)] else []
  }

  /** Enabling keeps the id and leaves the clock on; the hardware is touched exactly when
      the clock was off, and a second enable does nothing. */
  lemma EnableIsIdempotent(c: ClockController)
    ensures Enabled(c).clock == c.clock && Enabled(c).clockEnabled
    ensures EnableEvents(c) != [] <==> !c.clockEnabled
    ensures Enabled(Enabled(c)) == Enabled(c) && EnableEvents(Enabled(c)) == []
  {
  }

  /** Disabling keeps the id and leaves the clock off; the hardware is touched exactly when
      the clock was on, and a second disable does nothing. */
  lemma DisableIsIdempotent(c: ClockController)
    ensures Disabled(c).clock == c.clock && !Disabled(c).clockEnabled
    ensures DisableEvents(c) != [] <==> c.clockEnabled
    ensures Disabled(Disabled(c)) == Disabled(c) && DisableEvents(Disabled(c)) == []
  {
  }

  /** Enabling then disabling a clock that was off returns it to where it was, switching
      the gate on and then off. */
  lemma EnableThenDisable(c: ClockController)
    requires !c.clockEnabled
    ensures Disabled(Enabled(c)) == c
    ensures EnableEvents(c) + DisableEvents(Enabled(c)) == [RccClockEnable(c.clock), RccClockDisable(c.clock)]
  {
  }

  /** enableClock(&cs[i]). */
  method EnableClock(cs: array<ClockController>, i: nat) returns (ev: seq<Event>)
    requires i < cs.Length
    modifies cs
    ensures cs[..] == old(cs[..])[i := Enabled(old(cs[i]))]
    ensures ev == EnableEvents(old(cs[i]))
  {
    ev := [];
    if !cs[i].clockEnabled {
      ev := [RccClockEnable(cs[i].clock)];
      cs[i] := cs[i].(clockEnabled := true);
    }
  }

  /** disableClock(&cs[i]). */
  method DisableClock(cs: array<ClockController>, i: nat) returns (ev: seq<Event>)
    requires i < cs.Length
    modifies cs
    ensures cs[..] == old(cs[..])[i := Disabled(old(cs[i]))]
    ensures ev == DisableEvents(old(cs[i]))
  {
    ev := [];
    if cs[i].clockEnabled {
      ev := [RccClockDisable(cs[i].clock)];
      cs[i] := cs[i].(clockEnabled := false);
    }
  }
}
