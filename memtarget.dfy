/**
 * The collaborators of OverAcquire: the usage snapshot (MemoryUsageStats),
 * the usage recorder, the host allocator and the wrapped task-managed target.
 */
module MemTarget {

  /** A usage snapshot: current bytes, peak bytes (-1 when unknown) and the
      snapshots of the children, keyed by their names. */
  datatype UsageStats = UsageStats(current: int, peak: int, children: map<string, UsageStats>)

  /** The reasons an operation is refused; in the source each one is an
      IllegalArgumentException raised by a failing argument check. */
  datatype Error =
    | RatioIsNegative       // "ratio >= 0.0" does not hold
    | BorrowSizeIsZero      // "Size to borrow is zero"
    | RepaySizeIsZero       // "Size to repay is zero"
    | RepaidSizeMismatch    // "Repaid size is not equal to requested size"
    | ReserveNotFreed       // "Freed over-acquired size is not equal to requested size"
    | ReserveNotCleaned     // "Over-acquired target was not cleaned up"

  datatype Result<T> = Ok(value: T) | Err(error: Error)

  function Min(a: int, b: int): (m: int)
  {
    if a <= b then a else b
  }

  /** What the host allocator grants for a request. The host is free to grant
      anything from 0 up to the request; `headroom` stands for its decision, and
      every admissible answer g is HostGrant(request, g). */
  function HostGrant(request: nat, headroom: nat): (g: nat)
    ensures g <= request
    ensures headroom >= request ==> g == request
  {
    Min(request, headroom)
  }

  /** A running usage counter with its high-water mark. */
  class UsageRecorder {
    var current: int
    var peak: int

    constructor ()
      ensures current == 0 && peak == 0
    {
      current := 0;
      peak := 0;
    }

    method Inc(delta: int)
      modifies this
      ensures current == old(current) + delta
      ensures peak == if current > old(peak) then current else old(peak)
    {
      current := current + delta;
      if current > peak {
        peak := current;
      }
    }

    /** A leaf snapshot: no children. */
    function ToStats(): (s: UsageStats)
      reads this
    {
      UsageStats(current, peak, map[])
    }
  }

  /** The wrapped task-managed target, reduced to what OverAcquire observes of
      it: its name, the bytes it holds and its usage recorder. */
  class TaskTarget {
    const name: string
    var used: int
    const usage: UsageRecorder

    /** The target never holds a negative amount, and its recorder's running
        total is the amount it holds. */
    ghost predicate Valid()
      reads this, usage
    {
      0 <= used && usage.current == used
    }

    constructor (name: string)
      ensures Valid() && fresh(usage)
      ensures this.name == name && used == 0
    {
      this.name := name;
      used := 0;
      usage := new UsageRecorder();
    }

    /** Borrows from the host; usage grows by exactly what was granted. */
    method Borrow(size: nat, headroom: nat) returns (granted: nat)
      requires Valid()
      modifies this, usage
      ensures Valid()
      ensures granted == HostGrant(size, headroom)
      ensures used == old(used) + granted
    {
      granted := HostGrant(size, headroom);
      used := used + granted;
      usage.Inc(granted);
    }

    /** Gives `freed` bytes back to the host. How much a target frees for a
        request of `size` is its own affair: OverAcquire checks the answer. */
    method Repay(size: nat, freed: nat) returns (r: nat)
      requires Valid()
      requires freed <= used
      modifies this, usage
      ensures Valid()
      ensures r == freed
      ensures used == old(used) - freed
    {
      used := used - freed;
      usage.Inc(-(freed as int));
      r := freed;
    }

    /** A host-issued spill: frees as much of the request as the target holds. */
    method Spill(size: nat) returns (freed: nat)
      requires Valid()
      modifies this, usage
      ensures Valid()
      ensures freed == Min(size, old(used))
      ensures used == old(used) - freed
    {
      freed := Min(size, used);
      used := used - freed;
      usage.Inc(-(freed as int));
    }

    function UsedBytes(): (n: int)
      reads this
    {
      used
    }

    function Stats(): (s: UsageStats)
      reads this, usage
    {
      usage.ToStats()
    }
  }
}
