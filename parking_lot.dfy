/**
 * The bthread parking lot: idle workers park on one 32-bit word,
 * `pendingSignal`. Bit 0 is a sticky "stopped" flag; the other 31 bits are a
 * generation counter that `signal` adds to, wrapping modulo 2^31; its value
 * means nothing beyond "changed since the snapshot". A waiter
 * snapshots the word (a `State`) before it parks; the futex wait then blocks
 * only while the word still equals that snapshot, so a single signal with a
 * positive count that lands in between is never lost. Several signals whose
 * shifted counts add up to 0 modulo 2^32 bring the word back to the snapshot,
 * and then a wait on it sleeps.
 *
 * The word is a C++ `atomic<int>`; its updates wrap modulo 2^32, modelled
 * with `bv32`. The futex calls are abstract: `Wait` reports whether the kernel
 * would put the caller to sleep, and the number of woken workers is not modelled.
 */
module Parking {

  /**
   * A C++ `int` argument, as its 32-bit two's-complement bit pattern.
   * Comparisons on it are unsigned: negative ints lie at and above `IntMin`.
   */
  type IntBits = bv32

  /** The bit pattern of INT_MIN, -2^31. */
  const IntMin: IntBits := 0x8000_0000

  /** The argument is a positive `int`: 0 < n <= INT_MAX. */
  predicate IsPositive(n: IntBits)
  {
    0 < n < IntMin
  }

  /** A snapshot of the word, taken by `GetState` and handed to `Wait`. */
  datatype State = State(val: bv32) {
    /** Bit 0 set, i.e. the word is odd. */
    predicate Stopped(): (b: bool)
      ensures b <==> val % 2 == 1
    {
      val & 1 == 1
    }
  }

  /** The public default constructor of `State`. */
  function DefaultState(): (s: State)
    ensures !s.Stopped()
  {
    State(0)
  }

  /** What `signal(n)` does to the word: add n << 1, wrapping. */
  function SignalStep(word: bv32, n: IntBits): (w: bv32)
    ensures w & 1 == word & 1
  {
    word + (n << 1)
  }

  /** What `stop()` does to the word: set bit 0. */
  function StopStep(word: bv32): (w: bv32)
    ensures State(w).Stopped()
    ensures w & !1 == word & !1
  {
    word | 1
  }

  /** The futex contract: a wait on `expected` may sleep only while the word still equals it. */
  predicate MayBlock(word: bv32, expected: State)
  {
    word == expected.val
  }

  // ---------------------------------------------------------------------------
  // Properties of the word's transitions
  // ---------------------------------------------------------------------------

  /** A signal leaves the word unchanged exactly when n << 1 wraps to 0, i.e. n is 0 or INT_MIN. */
  lemma SignalChangesWord(word: bv32, n: IntBits)
    ensures SignalStep(word, n) != word <==> n != 0 && n != IntMin
  {
  }

  /**
   * No lost wakeup: a waiter that snapshotted the word before a signal with a
   * positive count does not sleep on that snapshot afterwards.
   */
  lemma NoLostWakeup(word: bv32, n: IntBits)
    requires IsPositive(n)
    ensures !MayBlock(SignalStep(word, n), State(word))
  {
    SignalChangesWord(word, n);
  }

  /** A waiter that snapshotted a running (not stopped) lot does not sleep once it is stopped. */
  lemma StopWakesEarlierSnapshots(word: bv32)
    requires !State(word).Stopped()
    ensures !MayBlock(StopStep(word), State(word))
  {
  }

  /**
   * Stopping does not make waits unwaitable by itself: a snapshot taken after
   * the stop matches the stopped word, so a wait on it may sleep until a later
   * signal. Callers test `Stopped()` on their snapshot before waiting.
   */
  lemma WaitAfterStopMaySleep(word: bv32)
    ensures State(StopStep(word)).Stopped()
    ensures MayBlock(StopStep(word), State(StopStep(word)))
  {
  }

  /**
   * The counter wraps: two `signal(2^30)` after a snapshot add 2^32 to the
   * word, which brings it back to the snapshot, so a wait on it may sleep.
   */
  lemma SignalsCanWrapBack(word: bv32)
    ensures IsPositive(0x4000_0000)
    ensures SignalStep(word, 0x4000_0000) != word
    ensures MayBlock(Run(word, [Signal(0x4000_0000), Signal(0x4000_0000)]), State(word))
  {
  }

  lemma StopIdempotent(word: bv32)
    ensures StopStep(StopStep(word)) == StopStep(word)
  {
  }

  /** One update of the word. */
  datatype Op = Signal(n: IntBits) | Stop

  function Step(word: bv32, op: Op): bv32
  {
    match op
    case Signal(n) => SignalStep(word, n)
    case Stop => StopStep(word)
  }

  /** The word after a sequence of updates. */
  function Run(word: bv32, ops: seq<Op>): bv32
    decreases |ops|
  {
    if ops == [] then word else Run(Step(word, ops[0]), ops[1..])
  }

  /** Once stopped, stopped for good: no later update clears bit 0. */
  lemma {:induction false} StoppedIsSticky(word: bv32, ops: seq<Op>)
    requires State(word).Stopped()
    ensures State(Run(word, ops)).Stopped()
    decreases |ops|
  {
    if ops != [] {
      StoppedIsSticky(Step(word, ops[0]), ops[1..]);
    }
  }

  /** Without a stop, signals alone never change what `stopped()` reports. */
  lemma {:induction false} SignalsKeepStopFlag(word: bv32, ops: seq<Op>)
    requires forall i :: 0 <= i < |ops| ==> ops[i].Signal?
    ensures State(Run(word, ops)).Stopped() == State(word).Stopped()
    decreases |ops|
  {
    if ops != [] {
      SignalsKeepStopFlag(Step(word, ops[0]), ops[1..]);
    }
  }

  /** Every state taken after a stop reports stopped, whatever came before or after. */
  lemma {:induction false} StopIsFinal(word: bv32, before: seq<Op>, after: seq<Op>)
    ensures State(Run(word, before + [Stop] + after)).Stopped()
    decreases |before|
  {
    if before == [] {
      assert before + [Stop] + after == [Stop] + after;
      StoppedIsSticky(StopStep(word), after);
    } else {
      assert (before + [Stop] + after)[1..] == before[1..] + [Stop] + after;
      StopIsFinal(Step(word, before[0]), before[1..], after);
    }
  }

  // ---------------------------------------------------------------------------
  // The parking lot
  // ---------------------------------------------------------------------------

  class ParkingLot {
    var pendingSignal: bv32

    constructor ()
      ensures pendingSignal == 0
      ensures !GetState().Stopped()
    {
      pendingSignal := 0;
    }

    /** Advances the counter by n << 1; the futex wake that follows is not modelled. */
    method Signal(n: IntBits)
      modifies this
      ensures pendingSignal == SignalStep(old(pendingSignal), n)
      ensures GetState().Stopped() == old(GetState().Stopped())
    {
      pendingSignal := pendingSignal + (n << 1);
    }

    /** A snapshot of the word now, for a later `Wait`. */
    function GetState(): (s: State)
      reads this
      ensures MayBlock(pendingSignal, s)
    {
      State(pendingSignal)
    }

    /**
     * The futex wait on `expected`: returns true when the kernel would put
     * the caller to sleep, false when it returns at once.
     */
    method Wait(expected: State) returns (sleeps: bool)
      ensures sleeps <==> MayBlock(pendingSignal, expected)
    {
      sleeps := pendingSignal == expected.val;
    }

    /** Sets the stop flag for good; the futex wake of at most 10000 waiters that follows is not modelled. */
    method Stop()
      modifies this
      ensures pendingSignal == StopStep(old(pendingSignal))
      ensures GetState().Stopped()
    {
      pendingSignal := pendingSignal | 1;
    }
  }

  /**
   * A worker snapshots a running lot, a producer signals one task, and the
   * worker's wait on its snapshot returns at once; after stop, a fresh
   * snapshot reports stopped.
   */
  method SignalThenWaitScenario() returns (sleeps: bool, stoppedBefore: bool, stoppedAfter: bool)
    ensures !sleeps && !stoppedBefore && stoppedAfter
  {
    var lot := new ParkingLot();
    var s := lot.GetState();
    stoppedBefore := s.Stopped();
    lot.Signal(1);
    NoLostWakeup(s.val, 1);
    sleeps := lot.Wait(s);
    lot.Stop();
    stoppedAfter := lot.GetState().Stopped();
  }

  /**
   * A worker snapshots a new lot, a producer signals 2^30 tasks twice, and
   * the wait on the snapshot sleeps: the word has wrapped back to it.
   */
  method WrappedSignalsScenario() returns (sleeps: bool)
    ensures sleeps
  {
    var lot := new ParkingLot();
    var s := lot.GetState();
    lot.Signal(0x4000_0000);
    lot.Signal(0x4000_0000);
    sleeps := lot.Wait(s);
  }

  /**
   * Stop, then snapshot and wait: the snapshot reports stopped, yet the wait
   * on it would sleep, since nothing changed the word after the snapshot.
   */
  method StopThenWaitScenario() returns (stopped: bool, sleeps: bool)
    ensures stopped && sleeps
  {
    var lot := new ParkingLot();
    lot.Stop();
    var s := lot.GetState();
    stopped := s.Stopped();
    sleeps := lot.Wait(s);
  }
}
