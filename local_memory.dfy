/** The growth rule of app/inc/local-memory.h shared by every growable array of the firmware. */
module LocalMemory {
  import opened Hardware

  /** `GROW_CAPACITY(cap)`: at least 8 slots, otherwise double. */
  function GrowCapacity(cap: nat): (next: nat)
    ensures cap < 8 ==> next == 8
    ensures cap >= 8 ==> next == 2 * cap
    ensures next >= 8 && next > cap
  {
    if cap < 8 then 8 else cap * 2
  }

  /** The capacity of an array that starts with 4 slots and has grown n times. */
  function CapacityAfter(n: nat): nat
  {
    if n == 0 then 4 else GrowCapacity(CapacityAfter(n - 1))
  }

  /** Starting from 4, the capacities run 4, 8, 16, 32, ... */
  lemma {:induction false} CapacityAfterIsPowerOfTwo(n: nat)
    ensures CapacityAfter(n) == 4 * Pow2(n)
  {
    if n > 0 {
      CapacityAfterIsPowerOfTwo(n - 1);
    }
  }
}
