/**
 * The bthread work-stealing queue: a bounded circular buffer addressed by two
 * ever-growing indices, `top` (the thieves' end) and `bottom` (the owner's end).
 * The element with logical index i lives in slot `i & (capacity - 1)`.
 *
 * Each operation is modelled as one atomic, sequential step; the lock-free
 * protocol (fences, memory orders, the compare-and-swap races) is not.
 * Indices are `size_t` in the source and unbounded naturals here.
 */
module WorkStealing {

  datatype Option<T> = None | Some(value: T)

  // ---------------------------------------------------------------------------
  // Bit arithmetic on naturals: `&` and the power-of-two test used by `init`
  // ---------------------------------------------------------------------------

  /** Bitwise AND of two naturals, bit by bit from the least significant one. */
  function BitAnd(a: nat, b: nat): (r: nat)
    ensures r <= a && r <= b
  {
    if a == 0 || b == 0 then 0
    else 2 * BitAnd(a / 2, b / 2) + (if a % 2 == 1 && b % 2 == 1 then 1 else 0)
  }

  /** n is 2^k for some k. */
  predicate IsPowerOfTwo(n: nat)
  {
    n == 1 || (n >= 2 && n % 2 == 0 && IsPowerOfTwo(n / 2))
  }

  lemma {:induction false} BitAndSelf(a: nat)
    ensures BitAnd(a, a) == a
  {
    if a != 0 {
      BitAndSelf(a / 2);
    }
  }

  /** The test `capacity & (capacity - 1)` in `init` is zero exactly for powers of two. */
  lemma {:induction false} PowerOfTwoTest(n: nat)
    requires n > 0
    ensures BitAnd(n, n - 1) == 0 <==> IsPowerOfTwo(n)
  {
    if n == 1 {
    } else if n % 2 == 0 {
      var m := n / 2;
      assert (n - 1) / 2 == m - 1 && (n - 1) % 2 == 1;
      assert BitAnd(n, n - 1) == 2 * BitAnd(m, m - 1);
      PowerOfTwoTest(m);
    } else {
      var m := n / 2;
      assert (n - 1) / 2 == m && (n - 1) % 2 == 0 && m > 0;
      assert BitAnd(n, n - 1) == 2 * BitAnd(m, m);
      BitAndSelf(m);
    }
  }

  /** i % (2m) splits into the low bit of i and (i / 2) % m. */
  lemma ModOfDouble(i: nat, m: nat)
    requires m > 0
    ensures i % (2 * m) == 2 * ((i / 2) % m) + i % 2
  {
    var q, r := i / 2, i % 2;
    var s, t := q / m, q % m;
    assert i == 2 * m * s + (2 * t + r) by {
      assert q == m * s + t;
      assert i == 2 * q + r;
    }
    ModUnique(i, 2 * m, s, 2 * t + r);
  }

  lemma ModUnique(i: nat, d: nat, s: nat, r: nat)
    requires d > 0 && r < d && i == d * s + r
    ensures i % d == r && i / d == s
  {
    var s', r' := i / d, i % d;
    assert i == d * s' + r';
    if s' < s {
      assert d * s' + d <= d * s by { MulMonotone(d, s' + 1, s); }
    } else if s' > s {
      assert d * s + d <= d * s' by { MulMonotone(d, s + 1, s'); }
    }
  }

  lemma MulSucc(d: nat, q: nat)
    ensures d * (q + 1) == d * q + d
  {
  }

  lemma MulMonotone(d: nat, x: nat, y: nat)
    requires x <= y
    ensures d * x <= d * y
  {
  }

  /** One step of `&` against a mask of all ones: 2m - 1 keeps the low bit and masks the rest with m - 1. */
  lemma BitAndLowMask(i: nat, m: nat)
    requires m > 0
    ensures BitAnd(i, 2 * m - 1) == 2 * BitAnd(i / 2, m - 1) + i % 2
  {
    assert (2 * m - 1) / 2 == m - 1 && (2 * m - 1) % 2 == 1;
  }

  /** Masking with capacity - 1 is reduction modulo the capacity when it is a power of two. */
  lemma {:induction false} MaskIsMod(i: nat, c: nat)
    requires IsPowerOfTwo(c)
    ensures BitAnd(i, c - 1) == i % c
  {
    if c != 1 {
      var m := c / 2;
      assert c == 2 * m && IsPowerOfTwo(m);
      BitAndLowMask(i, m);
      MaskIsMod(i / 2, m);
      ModOfDouble(i, m);
    }
  }

  /** The physical slot of logical index i in a buffer of the given capacity. */
  function Slot(i: nat, capacity: nat): (s: nat)
    requires capacity > 0
    ensures s < capacity
  {
    BitAnd(i, capacity - 1)
  }

  lemma ModDistinct(i: nat, j: nat, c: nat)
    requires c > 0 && i < j < i + c
    ensures i % c != j % c
  {
    var q, r, d := i / c, i % c, j - i;
    if r + d < c {
      ModUnique(j, c, q, r + d);
    } else {
      MulSucc(c, q);
      ModUnique(j, c, q + 1, r + d - c);
    }
  }

  /** Fewer than `capacity` consecutive logical indices never share a slot. */
  lemma SlotsDistinct(i: nat, j: nat, capacity: nat)
    requires IsPowerOfTwo(capacity)
    requires i < j < i + capacity
    ensures Slot(i, capacity) != Slot(j, capacity)
  {
    MaskIsMod(i, capacity);
    MaskIsMod(j, capacity);
    ModDistinct(i, j, capacity);
  }

  // ---------------------------------------------------------------------------
  // The queue
  // ---------------------------------------------------------------------------

  class WorkStealingQueue<T(0)> {
    var bottom: nat
    var top: nat
    var capacity: nat
    var buffer: array<T>

    /** The queued elements, oldest (at `top`) first, newest (at `bottom - 1`) last. */
    ghost var Contents: seq<T>

    ghost predicate Valid()
      reads this, buffer
    {
      && top <= bottom <= top + capacity
      && buffer.Length == capacity
      && (capacity == 0 || IsPowerOfTwo(capacity))
      && |Contents| == bottom - top
      && forall k :: 0 <= k < |Contents| ==> buffer[Slot(top + k, capacity)] == Contents[k]
    }

    /** A new queue: both indices start at 1, no buffer yet (capacity 0). */
    constructor ()
      ensures Valid() && fresh(buffer)
      ensures bottom == 1 && top == 1 && capacity == 0 && Contents == []
    {
      bottom := 1;
      top := 1;
      capacity := 0;
      buffer := new T[0];
      Contents := [];
    }

    /**
     * Fixes the capacity once. Returns 0 on success and -1 when the queue is
     * already initialised, the capacity is 0 or not a power of two, or the
     * allocation fails (`allocationFails` stands for that outcome).
     */
    method Init(cap: nat, allocationFails: bool) returns (rc: int)
      requires Valid()
      modifies this
      ensures Valid()
      ensures rc == 0 || rc == -1
      ensures rc == 0 <==> old(capacity) == 0 && cap != 0 && IsPowerOfTwo(cap) && !allocationFails
      ensures rc == 0 ==> capacity == cap && fresh(buffer)
      ensures rc != 0 ==> capacity == old(capacity) && buffer == old(buffer)
      ensures top == old(top) && bottom == old(bottom) && Contents == old(Contents)
    {
      if capacity != 0 {
        return -1;  // already initialized
      }
      if cap == 0 {
        return -1;
      }
      PowerOfTwoTest(cap);
      if BitAnd(cap, cap - 1) != 0 {
        return -1;  // not a power of two
      }
      if allocationFails {
        return -1;
      }
      buffer := new T[cap];
      capacity := cap;
      rc := 0;
    }

    /** Owner only: appends x at the bottom unless the queue is full. */
    method Push(x: T) returns (ok: bool)
      requires Valid()
      modifies this, buffer
      ensures Valid() && buffer == old(buffer) && capacity == old(capacity)
      ensures ok <==> old(bottom) < old(top) + capacity
      ensures ok ==> |old(Contents)| < capacity
      ensures ok ==> Contents == old(Contents) + [x]
      ensures ok ==> bottom == old(bottom) + 1 && top == old(top)
      ensures ok ==> buffer[Slot(old(bottom), capacity)] == x
      ensures ok ==> forall j :: 0 <= j < buffer.Length && j != Slot(old(bottom), capacity) ==>
                       buffer[j] == old(buffer[j])
      ensures !ok ==> |Contents| == capacity
      ensures !ok ==> Contents == old(Contents) && bottom == old(bottom) && top == old(top)
      ensures !ok ==> buffer[..] == old(buffer[..])
    {
      var b := bottom;
      var t := top;
      if b >= t + capacity {
        return false;  // full
      }
      var slot := Slot(b, capacity);
      forall i | t <= i < b
        ensures Slot(i, capacity) != slot
      {
        SlotsDistinct(i, b, capacity);
      }
      buffer[slot] := x;
      bottom := b + 1;
      Contents := Contents + [x];
      ok := true;
    }

    /**
     * Owner only: takes the newest element from the bottom (LIFO for the owner).
     * `None` is the source's `false` with `*val` left alone.
     * When a single element is left, the compare-and-swap on `top` claims it and
     * `bottom` is restored, so the queue ends with top == bottom.
     */
    method Pop() returns (r: Option<T>)
      requires Valid()
      modifies this
      ensures Valid() && buffer == old(buffer) && capacity == old(capacity)
      ensures r.Some? <==> old(top) < old(bottom)
      ensures r.Some? ==> r.value == old(Contents)[|old(Contents)| - 1]
      ensures r.Some? ==> Contents == old(Contents)[..|old(Contents)| - 1]
      ensures r.Some? ==> r.value == buffer[Slot(old(bottom) - 1, capacity)]
      ensures r.Some? && old(bottom) - old(top) > 1 ==> bottom == old(bottom) - 1 && top == old(top)
      ensures r.Some? && old(bottom) - old(top) == 1 ==> bottom == old(bottom) && top == old(top) + 1
      ensures r.Some? && old(bottom) - old(top) == 1 ==> top == bottom
      ensures r.None? ==> Contents == old(Contents) && bottom == old(bottom) && top == old(top)
    {
      var b := bottom;
      var t := top;
      if t >= b {
        return None;  // empty
      }
      var newb := b - 1;
      bottom := newb;
      t := top;
      // The source gives up here when `t > newb`; only a concurrent steal can cause that.
      assert t <= newb;
      var val := buffer[Slot(newb, capacity)];
      if t != newb {
        Contents := Contents[..|Contents| - 1];
        return Some(val);
      }
      // Single last element: the compare-and-swap of `top` from t to t + 1 is
      // contested only by a concurrent steal, so sequentially it succeeds.
      assert top == t;
      top := t + 1;
      bottom := b;
      Contents := [];
      r := Some(val);
    }

    /** Any thread: takes the oldest element from the top (FIFO for thieves). */
    method Steal() returns (r: Option<T>)
      requires Valid()
      modifies this
      ensures Valid() && buffer == old(buffer) && capacity == old(capacity)
      ensures r.Some? <==> old(top) < old(bottom)
      ensures r.Some? ==> r.value == old(Contents)[0] && Contents == old(Contents)[1..]
      ensures r.Some? ==> r.value == buffer[Slot(old(top), capacity)]
      ensures r.Some? ==> top == old(top) + 1 && bottom == old(bottom)
      ensures r.None? ==> Contents == old(Contents) && bottom == old(bottom) && top == old(top)
    {
      var t := top;
      var b := bottom;
      if t >= b {
        return None;  // empty
      }
      // The re-read of `bottom` after the fence and the compare-and-swap retry
      // loop only matter under concurrency: sequentially the first attempt wins.
      var val := buffer[Slot(t, capacity)];
      assert top == t;
      top := t + 1;
      Contents := Contents[1..];
      r := Some(val);
    }

    /** bottom - top, clamped at 0. */
    function VolatileSize(): (n: nat)
      reads this, buffer
      requires Valid()
      ensures n == |Contents|
      ensures n <= capacity
    {
      if bottom <= top then 0 else bottom - top
    }

    function Capacity(): (c: nat)
      reads this, buffer
      requires Valid()
      ensures c == buffer.Length
      ensures c == 0 || IsPowerOfTwo(c)
    {
      capacity
    }
  }

  // ---------------------------------------------------------------------------
  // Client scenarios
  // ---------------------------------------------------------------------------

  /**
   * Capacity 4: push A, B, C, D; a fifth push fails; pop gives D; thieves get
   * A then B; the owner pops C; then both ends report empty.
   */
  method FullQueueScenario() returns (fifth: bool, taken: seq<Option<char>>)
    ensures !fifth
    ensures taken == [Some('D'), Some('A'), Some('B'), Some('C'), None, None]
  {
    var q := new WorkStealingQueue<char>();
    var rc := q.Init(4, false);
    assert IsPowerOfTwo(4) by { assert IsPowerOfTwo(2); }
    var ok := q.Push('A');
    ok := q.Push('B');
    ok := q.Push('C');
    ok := q.Push('D');
    assert q.Contents == ['A', 'B', 'C', 'D'];
    fifth := q.Push('E');
    var p1 := q.Pop();
    assert q.Contents == ['A', 'B', 'C'];
    var s1 := q.Steal();
    var s2 := q.Steal();
    assert q.Contents == ['C'];
    var p2 := q.Pop();
    var p3 := q.Pop();
    var s3 := q.Steal();
    taken := [p1, s1, s2, p2, p3, s3];
  }

  /** One element X: the pop claims it and a steal that follows finds nothing. */
  method SingleElementScenario() returns (popped: Option<char>, stolen: Option<char>)
    ensures popped == Some('X') && stolen == None
  {
    var q := new WorkStealingQueue<char>();
    var rc := q.Init(2, false);
    var ok := q.Push('X');
    popped := q.Pop();
    stolen := q.Steal();
  }

  /** One element X, the other order: a steal claims X and a following pop finds nothing. */
  method StealFirstScenario() returns (stolen: Option<char>, popped: Option<char>)
    ensures stolen == Some('X') && popped == None
  {
    var q := new WorkStealingQueue<char>();
    var rc := q.Init(2, false);
    var ok := q.Push('X');
    stolen := q.Steal();
    popped := q.Pop();
  }
}
