/**
 * Client walks through OverAcquire, stated against the contracts alone: the
 * ratio-1/2 walk, a zero ratio, a spill of the wrapped target that makes the
 * top-up difference negative, a spill of the reserve, and a mismatched repay.
 */
module Scenarios {
  import opened MemTarget
  import opened OverAcquireTarget

  method HalfRatio()
  {
    var task := new TaskTarget("task");
    var made := OverAcquire.Make(task, Ratio(1, 2));
    var o := made.value;
    assert o.Name() == "OverAcquire-[task][OverAcquire.DummyTarget]";

    var r := o.Borrow(100, 1000, 1000);
    assert r == Ok(100);
    assert o.target.used == 100 && o.overTarget.used == 50 && o.UsedBytes() == 150;

    r := o.Borrow(100, 1000, 1000);
    assert o.target.used == 200 && o.overTarget.used == 100 && o.UsedBytes() == 300;

    r := o.Repay(200, 200);
    assert r == Ok(200);
    assert o.target.used == 0 && o.overTarget.used == 0 && o.UsedBytes() == 0;
  }

  method PartialGrants()
  {
    var task := new TaskTarget("task");
    var made := OverAcquire.Make(task, Ratio(1, 2));
    var o := made.value;

    // the host grants 60 of 100 to the target, then 10 of the 30 wanted for the reserve
    var r := o.Borrow(100, 60, 10);
    assert r == Ok(60);
    assert o.overTarget.used == 10;

    // the next borrow corrects the under-filled reserve
    r := o.Borrow(40, 1000, 1000);
    assert o.target.used == 100 && o.overTarget.used == 50;
  }

  method ZeroRatio()
  {
    var task := new TaskTarget("task");
    var made := OverAcquire.Make(task, Ratio(0, 1));
    var o := made.value;
    var r := o.Borrow(100, 1000, 1000);
    assert r == Ok(100) && o.overTarget.used == 0 && o.UsedBytes() == 100;
    r := o.Borrow(0, 1000, 1000);
    assert r == Err(BorrowSizeIsZero);
    r := o.Repay(0, 0);
    assert r == Err(RepaySizeIsZero);

    var bad := OverAcquire.Make(task, Ratio(-1, 2));
    assert bad == Err(RatioIsNegative);
  }

  method SpillOfWrappedTarget()
  {
    var task := new TaskTarget("task");
    var made := OverAcquire.Make(task, Ratio(1, 2));
    var o := made.value;
    var r := o.Borrow(100, 1000, 1000);
    assert o.overTarget.used == 50;

    // the host spills the wrapped target between two borrows
    var spilled := o.target.Spill(60);
    assert o.Valid() && o.target.used == 40 && !o.Proportionate();

    // expected 25 < 50: the reserve is left as it is
    r := o.Borrow(10, 1000, 1000);
    assert r == Ok(10) && o.target.used == 50 && o.overTarget.used == 50;

    // a repay drains it all the same
    r := o.Repay(50, 50);
    assert r == Ok(50) && o.UsedBytes() == 0;
  }

  method SpillOfReserve()
  {
    var task := new TaskTarget("task");
    var made := OverAcquire.Make(task, Ratio(1, 2));
    var o := made.value;
    var r := o.Borrow(100, 1000, 1000);

    // the host reclaims 20 of the reserve; asking for more than it holds frees the rest
    var freed := o.overTarget.Spill(20);
    assert freed == 20 && o.Valid() && o.overTarget.used == 30;
    freed := o.overTarget.Spill(1000);
    assert freed == 30 && o.overTarget.used == 0;

    // the next borrow tops the reserve up again
    r := o.Borrow(100, 1000, 1000);
    assert o.overTarget.used == 100;
  }

  method MismatchedRepay()
  {
    var task := new TaskTarget("task");
    var made := OverAcquire.Make(task, Ratio(1, 1));
    var o := made.value;
    var r := o.Borrow(100, 1000, 1000);
    assert o.overTarget.used == 100;

    // the wrapped target frees only 70 of 80: the repay fails after the target
    // has already released, and the reserve is not drained; like a spill of
    // the wrapped target, this leaves the reserve larger than expected
    r := o.Repay(80, 70);
    assert r == Err(RepaidSizeMismatch);
    assert o.target.used == 30 && o.overTarget.used == 100;
    assert o.Valid() && !o.Proportionate();

    // expected 40 < 100: the next borrow leaves the reserve as it is
    r := o.Borrow(10, 1000, 1000);
    assert r == Ok(10) && o.target.used == 40 && o.overTarget.used == 100;
  }

  method OverfreedRepay()
  {
    var task := new TaskTarget("task");
    var made := OverAcquire.Make(task, Ratio(1, 1));
    var o := made.value;
    var r := o.Borrow(100, 1000, 1000);

    // the wrapped target frees 50 for a request of 10: the check rejects this
    // direction too, after the bytes are gone, and the reserve is kept
    r := o.Repay(10, 50);
    assert r == Err(RepaidSizeMismatch);
    assert o.target.used == 50 && o.overTarget.used == 100;
    assert o.Valid() && !o.Proportionate();
  }
}
