# bthread work-stealing queue and parking lot, modelled in Dafny

This project models two state-keeping components of the bthread M:N scheduler
(brpc). Both are modelled sequentially: every operation is one atomic step.

- `WorkStealing.WorkStealingQueue<T>` (`work_stealing_queue.dfy`) is the bounded
  deque that each worker owns. It is a class with the source's fields: `bottom`,
  `top` and `capacity` (naturals standing for `size_t`), and `buffer` (an
  array). A ghost field `Contents` gives the abstract value: the elements at
  logical indices `[top, bottom)`, oldest first. Logical index `i` lives in
  slot `i & (capacity - 1)`. The object invariant `Valid()` says five things:
  `top <= bottom <= top + capacity`; the buffer has `capacity` slots; the
  capacity is 0 or a power of two; `Contents` has `bottom - top` elements;
  and each element of `Contents` sits in its
  slot. The owner pushes and pops at the bottom, so it sees LIFO order. Thieves
  steal from the top, so they see FIFO order. Bitwise AND on naturals is
  defined bit by bit (`BitAnd`). Lemmas show that `c & (c - 1) == 0` is
  exactly the power-of-two test. They also show that masking with `c - 1` is
  `% c` when `c` is a power of two, so fewer than `c` consecutive indices
  never share a slot.
- `Parking.ParkingLot` (`parking_lot.dfy`) is a one-word state machine. The
  word `pendingSignal` is a C++ `atomic<int>`, modelled as a `bv32` so that
  additions wrap modulo 2^32. Bit 0 is the sticky "stopped" flag. `signal(n)`
  adds `n << 1`, and `stop()` ORs in 1. A `State` is a snapshot of the word.
  The futex wait is abstract: `Wait` reports whether the kernel would put the
  caller to sleep. It would only when the word still equals the snapshot.
  The pure functions `SignalStep`, `StopStep` and `Run` (over a sequence of
  `Op`s) specify the word's transitions. The lemmas about them give these
  properties: a single signal with a positive count between a snapshot and a
  wait is never lost, the stop flag is sticky, and signals never touch that
  flag. The counter wraps, so several signals can bring the word back to an
  old snapshot (`SignalsCanWrapBack`).

`init` returns -1 for every failure: already initialized, a zero capacity, a
capacity that is not a power of two, and a failed allocation. The source
has only this one error code, and the model follows it.

## Model

| member | source | states |
|---|---|---|
| `WorkStealing.BitAnd` | src/bthread/work_stealing_queue.h:56 | `a & b` on naturals is at most each operand (so a masked index is below the mask) |
| `WorkStealing.PowerOfTwoTest` | src/bthread/work_stealing_queue.h:55-60 | for n > 0, `n & (n - 1) == 0` holds exactly when n is a power of two (both directions) |
| `WorkStealing.MaskIsMod` | src/bthread/work_stealing_queue.h:81 | for a power-of-two capacity c, `i & (c - 1) == i % c` for every index i |
| `WorkStealing.Slot` | src/bthread/work_stealing_queue.h:81 | the slot `i & (capacity - 1)` lies in `[0, capacity)` |
| `WorkStealing.SlotsDistinct` | src/bthread/work_stealing_queue.h:78-81 | two logical indices less than `capacity` apart map to different slots, so a push never overwrites a queued element |
| `WorkStealing.WorkStealingQueue.constructor` | src/bthread/work_stealing_queue.h:34-39 | a new queue has `bottom == top == 1`, capacity 0, is empty and satisfies the invariant |
| `WorkStealing.WorkStealingQueue.Init` | src/bthread/work_stealing_queue.h:46-68 | returns 0 exactly when the queue was uninitialised (capacity 0), the argument is non-zero, a power of two, and allocation succeeds; then `capacity` equals the argument on a fresh buffer; otherwise -1 with capacity and buffer unchanged; `top`, `bottom` and the contents are never touched |
| `WorkStealing.WorkStealingQueue.Push` | src/bthread/work_stealing_queue.h:75-84 | fails exactly when `bottom >= top + capacity` (the queue holds `capacity` elements), changing nothing; otherwise writes x to slot `bottom & (capacity - 1)`, leaves every other slot alone, appends x to the contents, increments `bottom` by 1, keeps `top`, and keeps the invariant |
| `WorkStealing.WorkStealingQueue.Pop` | src/bthread/work_stealing_queue.h:91-122 | fails exactly on an empty queue (`top >= bottom`), changing nothing; otherwise returns the newest element (slot `(bottom - 1) & (capacity - 1)`) and removes exactly it; with more than one element `bottom` drops by 1, with one element the compare-and-swap advances `top` and `bottom` is restored, leaving `top == bottom` |
| `WorkStealing.WorkStealingQueue.Steal` | src/bthread/work_stealing_queue.h:128-159 | fails exactly on an empty queue, changing nothing; otherwise returns the oldest element (slot `top & (capacity - 1)`), removes exactly it, increments `top` by 1 and keeps `bottom` |
| `WorkStealing.WorkStealingQueue.VolatileSize` | src/bthread/work_stealing_queue.h:161-165 | the clamped difference `bottom - top` is the number of queued elements and never exceeds the capacity |
| `WorkStealing.WorkStealingQueue.Capacity` | src/bthread/work_stealing_queue.h:167 | the capacity is the buffer's length and is 0 or a power of two |
| `WorkStealing.FullQueueScenario` | src/bthread/work_stealing_queue.h:75-159 | with capacity 4, after pushing A, B, C, D a fifth push fails; then pop gives D, two steals give A and B, pop gives C, and both ends then report empty |
| `WorkStealing.SingleElementScenario` | src/bthread/work_stealing_queue.h:113-121 | with one element X, pop claims X and a following steal finds nothing |
| `WorkStealing.StealFirstScenario` | src/bthread/work_stealing_queue.h:128-159 | with one element X, a steal claims X and a following pop finds nothing |
| `Parking.State.Stopped` | src/bthread/parking_lot.h:36 | a snapshot reports stopped exactly when bit 0 of its word is set, i.e. the word is odd |
| `Parking.WaitAfterStopMaySleep` | src/bthread/parking_lot.h:59-67 | a snapshot taken after a stop reports stopped but still matches the word, so a wait on it may sleep |
| `Parking.DefaultState` | src/bthread/parking_lot.h:35-36 | a default-constructed `State` reports `stopped() == false` |
| `Parking.SignalStep` | src/bthread/parking_lot.h:48-50 | adding `n << 1` (mod 2^32) never changes bit 0 of the word |
| `Parking.StopStep` | src/bthread/parking_lot.h:65-67 | OR-ing in 1 sets the stop flag and leaves every other bit as it was |
| `Parking.SignalChangesWord` | src/bthread/parking_lot.h:50 | a signal changes the word exactly when n is neither 0 nor INT_MIN (both directions) |
| `Parking.NoLostWakeup` | src/bthread/parking_lot.h:48-62 | after a signal with a positive count, a wait on a snapshot taken before it cannot sleep |
| `Parking.StopWakesEarlierSnapshots` | src/bthread/parking_lot.h:59-67 | after stop, a wait on a snapshot of the running lot cannot sleep |
| `Parking.SignalsCanWrapBack` | src/bthread/parking_lot.h:48-62 | `signal(2^30)` alone changes the word, but two of them wrap it back to the snapshot, so a wait on that snapshot may sleep |
| `Parking.StopIdempotent` | src/bthread/parking_lot.h:67 | stopping twice leaves the same word as stopping once |
| `Parking.StoppedIsSticky` | src/bthread/parking_lot.h:65-67 | from a stopped word, no sequence of signals and stops clears the flag |
| `Parking.SignalsKeepStopFlag` | src/bthread/parking_lot.h:48-50 | a sequence of signals alone leaves `stopped()` as it was |
| `Parking.StopIsFinal` | src/bthread/parking_lot.h:36-67 | every state taken after a stop, whatever came before or after it, reports stopped |
| `Parking.ParkingLot.constructor` | src/bthread/parking_lot.h:43 | a new lot's word is 0 and its state is not stopped |
| `Parking.ParkingLot.Signal` | src/bthread/parking_lot.h:48-52 | the word becomes `old + (n << 1)` mod 2^32 and `stopped()` is unchanged |
| `Parking.ParkingLot.GetState` | src/bthread/parking_lot.h:55-57 | a snapshot taken now matches the word, so a wait on it may sleep |
| `Parking.ParkingLot.Wait` | src/bthread/parking_lot.h:59-63 | the caller would sleep exactly when the word still equals the snapshot; otherwise the wait returns at once |
| `Parking.ParkingLot.Stop` | src/bthread/parking_lot.h:65-69 | the word becomes the old word with bit 0 set, and a state taken right after reports stopped |
| `Parking.WrappedSignalsScenario` | src/bthread/parking_lot.h:43-62 | snapshot a new lot, signal 2^30 twice, and the wait on the snapshot would sleep |
| `Parking.StopThenWaitScenario` | src/bthread/parking_lot.h:55-68 | stop, then snapshot: the snapshot reports stopped, and the wait on it would sleep |
| `Parking.SignalThenWaitScenario` | src/bthread/parking_lot.h:43-68 | snapshot a new lot, signal 1, and the wait on the snapshot returns at once; after stop, a fresh snapshot reports stopped |

## Left out

- Concurrency: memory orders, `atomic_thread_fence`, cache-line alignment and interleavings of `pop` and `steal`. Each operation is one sequential step.
- `WorkStealing.WorkStealingQueue.Pop`: does not model the early return when the re-read `top` exceeds `bottom - 1` (work_stealing_queue.h:109-112). It does not model a lost compare-and-swap either (line 118). Both need a concurrent `steal`; the model asserts that the first cannot happen and that the second always succeeds.
- `WorkStealing.WorkStealingQueue.Steal`: does not model the re-check of `bottom` after the fence or the compare-and-swap retry loop (work_stealing_queue.h:135-157). Without a racing thread, the first attempt always succeeds.
- `size_t` wrap-around of `top`, `bottom` and `top + capacity`: the indices are unbounded naturals. Reaching 2^64 would take 2^64 operations.
- `LOG(ERROR)` messages in `init`. An allocation failure of `new(std::nothrow)` is the `allocationFails` parameter of `Init`.
- The destructor and `DISALLOW_COPY_AND_ASSIGN`.
- `Parking.ParkingLot.Signal`: does not return the number of woken workers (parking_lot.h:51), because the kernel decides it.
- `Parking.ParkingLot.Stop`: the wake of at most 10000 waiters (parking_lot.h:68) is not modelled; the source discards its count.
- `Parking.ParkingLot.Wait`: only says whether the caller would sleep. Blocking, waking, spurious wake-ups and timeouts are not modelled.
- src/bthread/sys_futex.h (the raw futex syscalls and their macOS declarations) is not part of this model. Only the futex-wait contract appears, as `MayBlock`.
- The `num_task` argument of `signal` is an `int`. It is modelled as its 32-bit two's-complement pattern (`IntBits`, compared unsigned), and `IsPositive` picks out the positive values.
- `Parking.StopWakesEarlierSnapshots`: the promise that a wait returns at once after a stop holds only for snapshots taken before the stop. The comment on `stop()` (parking_lot.h:65) calls waits "unwaitable ever", but a snapshot taken after the stop still equals the word, so `wait` on it may sleep until a later signal (`WaitAfterStopMaySleep`, `StopThenWaitScenario`). Callers must test `stopped()` on their snapshot before calling `wait`.
- `Parking.NoLostWakeup`: covers one positive signal between the snapshot and the wait. Signals whose shifted counts `n << 1` add up to 0 modulo 2^32 wrap the word back to the snapshot, as `fetch_add` on `atomic<int>` does (parking_lot.h:50). Examples are two `signal(2^30)` or 2^31 calls of `signal(1)`. A wait on that snapshot may then sleep (`SignalsCanWrapBack`, `WrappedSignalsScenario`).
