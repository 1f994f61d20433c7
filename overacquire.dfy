/**
 * OverAcquire: a task-managed memory target that, on every borrow, asks the
 * host once for the difference between ratio * the wrapped target's usage and
 * a hidden reserve (held by DummyTarget), and on every repay drains that
 * reserve completely.
 */
module OverAcquireTarget {
  import opened MemTarget

  type Positive = n: int | 0 < n witness 1

  /** The double `ratio` as the fraction num / den. */
  datatype Ratio = Ratio(num: int, den: Positive)

  const DummyName: string := "OverAcquire.DummyTarget"

  /** (long) (ratio * majorSize) for a non-negative ratio: the product
      truncated to a whole number of bytes. */
  function ExpectedReserve(ratio: Ratio, major: nat): (r: nat)
    requires 0 <= ratio.num
    ensures r * ratio.den <= ratio.num * major < (r + 1) * ratio.den
    ensures ratio.num == 0 ==> r == 0
    ensures ratio.num <= ratio.den ==> r <= major
  {
    var product := ratio.num * major;
    var r := product / ratio.den;
    FloorBounds(product, ratio.den);
    if ratio.num <= ratio.den then
      MultiplyMonotone(ratio.num, ratio.den, major);
      MultiplyCancel(r, major, ratio.den);
      r
    else
      r
  }

  lemma FloorBounds(p: nat, d: Positive)
    ensures 0 <= p / d
    ensures (p / d) * d <= p < (p / d + 1) * d
  {
    assert p == d * (p / d) + p % d;
  }

  /** Dividing both sides of x * k <= y * k by a positive k. */
  lemma MultiplyCancel(x: int, y: int, k: Positive)
    requires x * k <= y * k
    ensures x <= y
  {
    if x > y {
      MultiplyMonotone(y + 1, x, k);
    }
  }

  /** The expected reserve never falls when the wrapped target's usage grows. */
  lemma ExpectedReserveMonotone(ratio: Ratio, a: nat, b: nat)
    requires 0 <= ratio.num
    requires a <= b
    ensures ExpectedReserve(ratio, a) <= ExpectedReserve(ratio, b)
  {
    var ea, eb := ExpectedReserve(ratio, a), ExpectedReserve(ratio, b);
    MultiplyMonotone(a, b, ratio.num);
    assert ea * ratio.den <= ratio.num * a <= ratio.num * b < (eb + 1) * ratio.den;
    if ea > eb {
      MultiplyMonotone(eb + 1, ea, ratio.den);
    }
  }

  lemma MultiplyMonotone(x: int, y: int, k: nat)
    requires x <= y
    ensures x * k <= y * k && k * x <= k * y
  {
    assert y * k - x * k == (y - x) * k;
  }

  /** The reserve left behind by OverAcquire.borrow: `major` is the wrapped
      target's usage after its own borrow, `reserve` the reserve before, and
      `headroom` what the host is willing to grant the top-up. */
  function ReserveAfterBorrow(ratio: Ratio, major: nat, reserve: nat, headroom: nat): (r: nat)
    requires 0 <= ratio.num
    ensures reserve <= ExpectedReserve(ratio, major) ==> reserve <= r <= ExpectedReserve(ratio, major)
    ensures reserve <= ExpectedReserve(ratio, major) <= reserve + headroom ==> r == ExpectedReserve(ratio, major)
    ensures ExpectedReserve(ratio, major) < reserve ==> r == reserve
    ensures ratio.num == 0 && reserve == 0 ==> r == 0
  {
    var diff := ExpectedReserve(ratio, major) - reserve;
    if diff >= 0 then reserve + DummyGrant(diff, headroom) else reserve
  }

  /** What DummyTarget.borrow obtains: nothing, without asking the host, for a
      zero request; otherwise what the host grants. */
  function DummyGrant(size: nat, headroom: nat): (g: nat)
    ensures g <= size
    ensures size <= headroom ==> g == size
  {
    if size == 0 then 0 else HostGrant(size, headroom)
  }

  /** The hidden target that holds the over-acquired reserve. `used` is the
      host consumer's own count of held bytes; `usage` records the same flow. */
  class DummyTarget {
    var used: int
    const usage: UsageRecorder

    ghost predicate Valid()
      reads this, usage
    {
      0 <= used && usage.current == used
    }

    constructor ()
      ensures Valid() && fresh(usage)
      ensures used == 0
    {
      used := 0;
      usage := new UsageRecorder();
    }

    method Borrow(size: nat, headroom: nat) returns (granted: nat)
      requires Valid()
      modifies this, usage
      ensures Valid()
      ensures granted == DummyGrant(size, headroom)
      ensures size == 0 ==> unchanged(this, usage)
      ensures used == old(used) + granted
      ensures usage.current == old(usage.current) + granted
    {
      if size == 0 {
        return 0;
      }
      granted := HostGrant(size, headroom);
      used := used + granted;
      usage.Inc(granted);
    }

    method Repay(size: nat) returns (freed: nat)
      requires Valid()
      modifies this, usage
      ensures Valid()
      ensures freed == Min(size, old(used))
      ensures used == old(used) - freed
      ensures usage.current == old(usage.current) - freed
    {
      freed := Min(size, used);
      used := used - freed;
      // the argument check on the consumer's usage always passes
      assert used >= 0;
      usage.Inc(-(freed as int));
    }

    /** A host-issued spill releases the reserve exactly as a repay does. */
    method Spill(size: nat) returns (freed: nat)
      requires Valid()
      modifies this, usage
      ensures Valid()
      ensures freed == Min(size, old(used))
      ensures used == old(used) - freed
    {
      freed := Repay(size);
    }

    function Name(): (s: string)
    {
      DummyName
    }

    function UsedBytes(): (n: int)
      reads this
    {
      used
    }

    function Stats(): (s: UsageStats)
      reads this, usage
    {
      usage.ToStats()
    }
  }

  class OverAcquire {
    const target: TaskTarget
    const overTarget: DummyTarget
    const ratio: Ratio

    /** Both children are valid and do not share a recorder; with a zero ratio
        the reserve is always empty. */
    ghost predicate Valid()
      reads target, target.usage, overTarget, overTarget.usage
    {
      && 0 <= ratio.num
      && target.Valid()
      && overTarget.Valid()
      && target.usage != overTarget.usage
      && (ratio.num == 0 ==> overTarget.used == 0)
    }

    /** The reserve does not exceed ratio * the wrapped target's usage. Two
        events can break this: a spill of the wrapped target, and a repay that
        fails because the wrapped target freed an amount other than asked, less
        or more (it has already released those bytes, and the reserve is kept). */
    ghost predicate Proportionate()
      requires Valid()
      reads target, target.usage, overTarget, overTarget.usage
    {
      overTarget.used <= ExpectedReserve(ratio, target.used)
    }

    constructor (target: TaskTarget, ratio: Ratio)
      requires target.Valid()
      requires 0 <= ratio.num
      ensures Valid() && fresh(overTarget) && fresh(overTarget.usage)
      ensures this.target == target && this.ratio == ratio
      ensures overTarget.used == 0
    {
      this.overTarget := new DummyTarget();
      this.target := target;
      this.ratio := ratio;
    }

    /** Construction, with its argument check on the ratio. */
    static method Make(target: TaskTarget, ratio: Ratio) returns (r: Result<OverAcquire>)
      requires target.Valid()
      ensures r.Err? <==> ratio.num < 0
      ensures r.Err? ==> r.error == RatioIsNegative
      ensures r.Ok? ==> r.value.Valid() && r.value.target == target && r.value.ratio == ratio
      ensures r.Ok? ==> fresh(r.value.overTarget) && fresh(r.value.overTarget.usage)
      ensures r.Ok? ==> r.value.overTarget.used == 0 && r.value.Proportionate()
    {
      if ratio.num < 0 {
        return Err(RatioIsNegative);
      }
      var o := new OverAcquire(target, ratio);
      return Ok(o);
    }

    /** Borrows from the wrapped target, then tops up the reserve. The caller
        sees exactly the wrapped target's grant. */
    method Borrow(size: nat, headroom: nat, reserveHeadroom: nat) returns (r: Result<nat>)
      requires Valid()
      modifies target, target.usage, overTarget, overTarget.usage
      ensures Valid()
      ensures r.Err? <==> size == 0
      ensures r.Err? ==> r.error == BorrowSizeIsZero
      ensures r.Err? ==> unchanged(target, target.usage, overTarget, overTarget.usage)
      ensures r.Ok? ==> r.value == HostGrant(size, headroom)
      ensures r.Ok? ==> target.used == old(target.used) + r.value
      ensures r.Ok? ==> overTarget.used == ReserveAfterBorrow(ratio, target.used, old(overTarget.used), reserveHeadroom)
      ensures r.Ok? && ExpectedReserve(ratio, target.used) < old(overTarget.used) ==> unchanged(overTarget, overTarget.usage)
      ensures old(Proportionate()) ==> Proportionate()
    {
      if size == 0 {
        return Err(BorrowSizeIsZero);
      }
      var granted := target.Borrow(size, headroom);
      var majorSize := target.UsedBytes();
      var expectedOverAcquired := ExpectedReserve(ratio, majorSize);
      var overAcquired := overTarget.UsedBytes();
      var diff := expectedOverAcquired - overAcquired;
      if diff >= 0 {
        // the reserve is best effort: the grant is not checked
        var _ := overTarget.Borrow(diff, reserveHeadroom);
      }
      ExpectedReserveMonotone(ratio, old(target.used), majorSize);
      return Ok(granted);
    }

    /** Repays the wrapped target, checks it freed the whole request, then
        drains the reserve and checks that it is empty. */
    method Repay(size: nat, freed: nat) returns (r: Result<nat>)
      requires Valid()
      requires size != 0 ==> freed <= target.used
      modifies target, target.usage, overTarget, overTarget.usage
      ensures Valid()
      ensures r == if size == 0 then Err(RepaySizeIsZero)
                   else if freed != size then Err(RepaidSizeMismatch)
                   else Ok(size)
      ensures size == 0 ==> unchanged(target, target.usage, overTarget, overTarget.usage)
      ensures size != 0 ==> target.used == old(target.used) - freed
      ensures r.Ok? ==> overTarget.used == 0 && Proportionate()
      ensures r.Err? ==> overTarget.used == old(overTarget.used)
    {
      if size == 0 {
        return Err(RepaySizeIsZero);
      }
      var freedMajor := target.Repay(size, freed);
      if freedMajor != size {
        return Err(RepaidSizeMismatch);
      }
      var overAcquired := overTarget.UsedBytes();
      var freedOverAcquired := overTarget.Repay(overAcquired);
      if freedOverAcquired != overAcquired {
        return Err(ReserveNotFreed);
      }
      if overTarget.UsedBytes() != 0 {
        return Err(ReserveNotCleaned);
      }
      return Ok(size);
    }

    function Name(): (s: string)
    {
      "OverAcquire-[" + target.name + "][" + overTarget.Name() + "]"
    }

    /** The bytes held by the wrapped target and the reserve together. */
    function UsedBytes(): (n: int)
      requires Valid()
      reads target, target.usage, overTarget, overTarget.usage
      ensures target.UsedBytes() <= n
      ensures n == Stats().current
    {
      target.UsedBytes() + overTarget.UsedBytes()
    }

    function Stats(): (s: UsageStats)
      reads target, target.usage, overTarget, overTarget.usage
      ensures s.peak == -1
      ensures s.children.Keys == {target.name, DummyName}
      ensures s.children[DummyName] == overTarget.Stats()
      ensures target.name != DummyName ==> s.children[target.name] == target.Stats()
    {
      var targetStats := target.Stats();
      var overTargetStats := overTarget.Stats();
      UsageStats(targetStats.current + overTargetStats.current, -1,
                 map[target.name := targetStats][overTarget.Name() := overTargetStats])
    }
  }

  /** The name of an OverAcquire determines the name of the target it wraps. */
  lemma NameDeterminesTarget(a: OverAcquire, b: OverAcquire)
    requires a.Name() == b.Name()
    ensures a.target.name == b.target.name
  {
    var prefix, suffix := "OverAcquire-[", "][" + DummyName + "]";
    var n := |a.Name()|;
    assert a.Name() == prefix + a.target.name + suffix;
    assert b.Name() == prefix + b.target.name + suffix;
    assert |a.target.name| == n - |prefix| - |suffix| == |b.target.name|;
    assert a.target.name == a.Name()[|prefix|..n - |suffix|];
    assert b.target.name == b.Name()[|prefix|..n - |suffix|];
  }

  /** The snapshot has two children, unless the wrapped target is itself named
      like the reserve, in which case the reserve's snapshot replaces it. */
  lemma StatsChildren(o: OverAcquire)
    ensures |o.Stats().children| == if o.target.name == DummyName then 1 else 2
  {
    var keys := o.Stats().children.Keys;
    if o.target.name == DummyName {
      assert keys == {DummyName};
    } else {
      assert keys == {o.target.name} + {DummyName};
    }
  }
}
