# OverAcquire memory target, modelled in Dafny

Gluten tracks the off-heap memory a Spark task uses through a tree of memory
targets. A target can borrow bytes, repay them, and report its name, the bytes
it holds and a snapshot of its usage. `OverAcquire` is a decorator around a
task-managed target. Each `borrow` passes the request to the wrapped target.
It then compares a hidden sibling (`DummyTarget`, a host memory consumer)
with a target reserve of `(long) (ratio * target.usedBytes())`. If the reserve
is below the target, it asks the host once for the difference. That request
is best effort, and the host may grant only part of it. If the reserve is
already above the target, it makes no request. The caller only ever sees the
wrapped target's grant. Each `repay` repays the
wrapped target, checks that the whole request was freed, and then drains the
reserve completely. The reserve is meant as insurance for a later phase of an
operator that can no longer spill.

The model has three files:

- `memtarget.dfy` (module `MemTarget`) holds the collaborators. It has the
  usage snapshot (`UsageStats`, standing for the `MemoryUsageStats` message),
  the error outcomes of the argument checks, and the usage recorder. It also
  has the host allocator, as `HostGrant`: the host may grant anything from 0
  up to the request, and the `headroom` parameter stands for its decision. The
  last item is the wrapped target, `TaskTarget`, reduced to its name, its held
  bytes and its recorder.
- `overacquire.dfy` (module `OverAcquireTarget`) models `OverAcquire` and its
  inner `DummyTarget`. Both are classes whose methods update their state in
  place. It also holds the specification functions for the top-up policy and
  the lemmas about them.
- `scenarios.dfy` (module `Scenarios`) holds client walks that use only the
  contracts. They cover: a ratio of 1/2 (100, then 200, then a repay of 200),
  partial grants, a zero ratio with the zero-size and negative-ratio errors, a
  host spill of the wrapped target that makes the top-up difference negative,
  a host spill of the reserve, and repays where the wrapped target frees less
  or more than asked. Such a failed repay also makes the next difference
  negative.

The double `ratio` is the fraction `num / den` with `den > 0`. The cast
`(long) (ratio * majorSize)` is the product truncated to whole bytes. Both
factors are non-negative, so truncation is floor division, and
`ExpectedReserve` states it as `r * den <= num * major < (r + 1) * den`.

Every failing `Preconditions.checkArgument` becomes an `Err` result. In the
code each one raises `IllegalArgumentException`. The model follows the code:
there is one `Error` value per check, and each failure is an ordinary outcome.
A failing check leaves behind whatever changes were made before it ran. When
the wrapped target frees the wrong amount, it has already released those
bytes, and the reserve is not drained.

The object invariant `OverAcquire.Valid` says four things:

- Each child's recorder total equals the bytes that child holds. So the
  recorder goes up by exactly what is granted and down by exactly what is
  freed.
- No child holds a negative amount.
- The two children do not share a recorder.
- With a zero ratio, the reserve stays empty.

A second predicate, `Proportionate`, says the reserve is no larger than the
expected reserve. It holds after construction. `borrow`, a successful
`repay` and a spill of the reserve all preserve it. Two events can break it.
One is a spill of the wrapped target. The other is a `repay` that fails
because the wrapped target freed an amount other than asked (less or more):
those bytes are already released, and the reserve is kept. Only after one of these can the top-up
difference be negative.

## Model

| member | source | states |
|---|---|---|
| `MemTarget.HostGrant` | gluten-core/src/main/java/io/glutenproject/memory/memtarget/OverAcquire.java:136 | the host never grants more than the request, and grants all of it when it has the headroom |
| `MemTarget.UsageRecorder.constructor` | gluten-core/src/main/java/io/glutenproject/memory/memtarget/OverAcquire.java:119 | a new recorder starts at current 0 and peak 0 |
| `MemTarget.UsageRecorder.Inc` | gluten-core/src/main/java/io/glutenproject/memory/memtarget/OverAcquire.java:137 | the running total moves by exactly the delta; the peak becomes the larger of the old peak and the new total |
| `MemTarget.TaskTarget.Borrow` | gluten-core/src/main/java/io/glutenproject/memory/memtarget/OverAcquire.java:64 | the wrapped target's usage grows by exactly its grant, which is at most the request; its recorder stays in step |
| `MemTarget.TaskTarget.Repay` | gluten-core/src/main/java/io/glutenproject/memory/memtarget/OverAcquire.java:78 | the wrapped target releases an amount of its own choosing, at most what it holds, and reports that amount |
| `MemTarget.TaskTarget.Spill` | gluten-core/src/main/java/io/glutenproject/memory/memtarget/OverAcquire.java:69 | a host spill of the wrapped target between operations frees min(size, held); this is one of the two events that can make diff negative, the other being a failed repay that freed an amount other than asked (less or more) |
| `OverAcquireTarget.ExpectedReserve` | gluten-core/src/main/java/io/glutenproject/memory/memtarget/OverAcquire.java:66 | the expected reserve is the floor of ratio * usage; it is 0 for a zero ratio and at most the usage for a ratio of at most 1 |
| `OverAcquireTarget.ExpectedReserveMonotone` | gluten-core/src/main/java/io/glutenproject/memory/memtarget/OverAcquire.java:65-69 | more wrapped usage never means a smaller expected reserve, so diff can only be negative after the wrapped target shrank |
| `OverAcquireTarget.ReserveAfterBorrow` | gluten-core/src/main/java/io/glutenproject/memory/memtarget/OverAcquire.java:65-71 | if diff >= 0 the reserve ends between its old value and the expected one, and equals the expected one when the host grants the top-up in full; if diff < 0 the reserve is untouched; with a zero ratio an empty reserve stays empty |
| `OverAcquireTarget.DummyGrant` | gluten-core/src/main/java/io/glutenproject/memory/memtarget/OverAcquire.java:131-139 | the reserve's borrow gets at most its request, and a zero request gets 0 whatever the host would grant |
| `OverAcquireTarget.DummyTarget.constructor` | gluten-core/src/main/java/io/glutenproject/memory/memtarget/OverAcquire.java:119-123 | a new reserve holds nothing and its recorder agrees |
| `OverAcquireTarget.DummyTarget.Borrow` | gluten-core/src/main/java/io/glutenproject/memory/memtarget/OverAcquire.java:131-139 | held bytes and the recorder both grow by exactly the grant; a zero request changes nothing |
| `OverAcquireTarget.DummyTarget.Repay` | gluten-core/src/main/java/io/glutenproject/memory/memtarget/OverAcquire.java:142-148 | frees and returns min(size, held); held bytes and the recorder both fall by exactly that; held never goes below 0, so the check on it always passes |
| `OverAcquireTarget.DummyTarget.Spill` | gluten-core/src/main/java/io/glutenproject/memory/memtarget/OverAcquire.java:126-128 | a spill has the same effect and result as a repay of the same size |
| `OverAcquireTarget.OverAcquire.constructor` | gluten-core/src/main/java/io/glutenproject/memory/memtarget/OverAcquire.java:54-59 | for a non-negative ratio: a fresh, empty reserve beside the given target, and the invariant holds |
| `OverAcquireTarget.OverAcquire.Make` | gluten-core/src/main/java/io/glutenproject/memory/memtarget/OverAcquire.java:54-59 | construction fails if and only if the ratio is negative; otherwise the object is valid, proportionate and holds no reserve |
| `OverAcquireTarget.OverAcquire.Borrow` | gluten-core/src/main/java/io/glutenproject/memory/memtarget/OverAcquire.java:62-73 | fails if and only if size is 0, changing nothing; otherwise it returns exactly the wrapped target's grant, the wrapped usage grows by that grant, the reserve becomes ReserveAfterBorrow of the new usage, the reserve target is not touched at all when diff < 0, and Proportionate is preserved |
| `OverAcquireTarget.OverAcquire.Repay` | gluten-core/src/main/java/io/glutenproject/memory/memtarget/OverAcquire.java:76-89 | fails if and only if size is 0 (nothing changes) or the wrapped target freed an amount other than size (the reserve is kept); otherwise it returns size with the reserve drained to 0; the two reserve checks never fail |
| `OverAcquireTarget.OverAcquire.UsedBytes` | gluten-core/src/main/java/io/glutenproject/memory/memtarget/OverAcquire.java:97-99 | total usage is at least the wrapped usage and equals the current value of the snapshot |
| `OverAcquireTarget.OverAcquire.Stats` | gluten-core/src/main/java/io/glutenproject/memory/memtarget/OverAcquire.java:102-111 | the peak is -1; the children are keyed by exactly the wrapped target's name and the reserve's name; the reserve's snapshot is always present, and the wrapped one is present unless the names clash |
| `OverAcquireTarget.StatsChildren` | gluten-core/src/main/java/io/glutenproject/memory/memtarget/OverAcquire.java:108-109 | the snapshot has two children, or one when the wrapped target is named like the reserve, because the second put replaces the first |
| `OverAcquireTarget.NameDeterminesTarget` | gluten-core/src/main/java/io/glutenproject/memory/memtarget/OverAcquire.java:92-94 | two OverAcquire names are equal only if the wrapped targets' names are equal; the name is the wrapped name between fixed brackets |

## Left out

- `getTaskMemoryManager` only passes the task memory manager through, so it is not modelled. The wrapped target and the reserve share no manager state in the model.
- The host allocator's arbitration is not modelled. Spark's `acquireMemory` and `freeMemory` become a grant of at most the request, chosen by the `headroom` parameter. Freeing always succeeds.
- The wrapped target is not a full task-managed target. It is a leaf with a name, its held bytes and one recorder, and its snapshot has no children. What it frees on repay is a parameter of at most its holdings, so that a mismatched repay can be modelled. Its recorder total is assumed to equal its held bytes (its `Valid`), because its code is not part of this model. The wrapped half of `OverAcquire.UsedBytes`' agreement with the snapshot's current value rests on that assumption.
- Spills are not concurrent. A spill is a separate call made between operations, either `TaskTarget.Spill` or `DummyTarget.Spill`. A spill nested inside a `borrow` or `repay` is not modelled, and neither is locking. For that reason the two reserve checks in `repay` are proved never to fail.
- The spill's `trigger` consumer argument is not modelled, because `DummyTarget.spill` ignores it.
- OverAcquire accepts negative sizes and passes them to the wrapped target; the model types sizes as nat and leaves that path out. Also not modelled is the 64-bit range of `long`: overflow of the sums and saturation of the `(long)` cast are not modelled.
- The ratio is a rational number, not a double. Floating-point rounding of `ratio * majorSize` and a NaN ratio are not modelled.
- `MemTarget.UsageRecorder.Inc`: `SimpleMemoryUsageRecorder` is not part of this model. The recorder is modelled as current plus delta, with the peak as a running maximum. No property of OverAcquire depends on the peak.
- The `MemoryUsageStats` protobuf builder is modelled as a plain datatype.
- `DummyTarget.Name`, `DummyTarget.UsedBytes`, `DummyTarget.Stats` and `OverAcquire.Name` are plain accessors with no contract of their own. What they promise is stated through `OverAcquire.Stats`, `OverAcquire.UsedBytes` and `NameDeterminesTarget`.
- `cpp-ch/local-engine/Parser/scalar_function_parser/GetJSONObjectParser.cpp` is not part of this model. It is glue over the expression graph and Substrait messages of other libraries.
