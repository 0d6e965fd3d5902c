/**
 The ring buffer inside a `simple_queue` (msgQueue/msgQueue.c:13-25) with its
 mutex and condition variable stripped away: `length` payload slots, `front`
 (next slot to pop) and `rear` (next slot to push), both advancing modulo
 `length`. The resident payloads are the slots `front, front+1, ..., rear-1`
 taken modulo `length`; one slot is always left unused so that a full ring
 can be told apart from an empty one.
 */
module RingBuffer {
  import opened QueueTypes

  /** The sequential state of a `simple_queue`. `queueType` is stored but never read. */
  datatype Ring<T> = Ring(front: int, rear: int, length: int, queueType: QueueType, slots: seq<Ptr<T>>)

  /** The cursor step `(i + 1) % length`, written without the remainder. */
  function Next(i: int, length: int): int
  {
    if i + 1 == length then 0 else i + 1
  }

  /** Number of forward steps from slot `i` to slot `j` around a ring of `length` slots. */
  function Dist(i: int, j: int, length: int): int
  {
    if i <= j then j - i else j - i + length
  }

  /** The cursors are in range and there is one slot per unit of `length`. */
  predicate Shaped<T>(q: Ring<T>)
  {
    && 1 <= q.length
    && |q.slots| == q.length
    && 0 <= q.front < q.length
    && 0 <= q.rear < q.length
  }

  /** The payloads in slots `i, Next(i), ...` up to but excluding slot `end`. */
  function Walk<T>(slots: seq<Ptr<T>>, i: int, end: int): seq<Ptr<T>>
    requires 0 <= i < |slots| && 0 <= end < |slots|
    decreases Dist(i, end, |slots|)
  {
    if i == end then [] else [slots[i]] + Walk(slots, Next(i, |slots|), end)
  }

  /** The abstract contents of the queue, oldest payload first. */
  function Contents<T>(q: Ring<T>): seq<Ptr<T>>
    requires Shaped(q)
  {
    Walk(q.slots, q.front, q.rear)
  }

  /** The representation invariant: in range, and no resident payload is NULL. */
  predicate Valid<T>(q: Ring<T>)
  {
    && Shaped(q)
    && forall k | 0 <= k < |Contents(q)| :: Contents(q)[k].Ptr?
  }

  /** `is_full_queue`'s test (msgQueue/msgQueue.c:117) and `push_simple_queue`'s (:163-164). */
  predicate Full<T>(q: Ring<T>)
    requires Shaped(q)
  {
    q.front == (q.rear + 1) % q.length
  }

  /** `is_empty_queue`'s test (msgQueue/msgQueue.c:140) and `pop_simple_queue`'s (:200). */
  predicate Empty<T>(q: Ring<T>)
  {
    q.front == q.rear
  }

  /** The step the source writes as `(x + 1) % length` is `Next`. */
  lemma NextIsRemainder(i: int, length: int)
    requires 0 <= i < length
    ensures Next(i, length) == (i + 1) % length
    ensures 0 <= Next(i, length) < length
  {
    if i + 1 < length {
      assert (i + 1) % length == i + 1;
    } else {
      assert (i + 1) % length == 0;
    }
  }

  /** Walking from `i` to `end` visits `Dist(i, end)` slots. */
  lemma {:induction false} WalkLength<T>(slots: seq<Ptr<T>>, i: int, end: int)
    requires 0 <= i < |slots| && 0 <= end < |slots|
    ensures |Walk(slots, i, end)| == Dist(i, end, |slots|)
    ensures Dist(i, end, |slots|) < |slots|
    decreases Dist(i, end, |slots|)
  {
    if i != end {
      WalkLength(slots, Next(i, |slots|), end);
    }
  }

  /** The occupancy is the source's `(rear - front + length) % length`, at most `length - 1`. */
  lemma ContentsLength<T>(q: Ring<T>)
    requires Shaped(q)
    ensures |Contents(q)| == (q.rear - q.front + q.length) % q.length
    ensures |Contents(q)| <= q.length - 1
  {
    WalkLength(q.slots, q.front, q.rear);
    if q.front <= q.rear {
      RemainderOfShift(q.rear - q.front, q.length);
    }
  }

  lemma RemainderOfShift(a: int, n: int)
    requires 0 <= a < n
    ensures (a + n) % n == a
  {
    assert a + n == 1 * n + a;
  }

  /** The queue is empty exactly when `front == rear`. */
  lemma EmptyIff<T>(q: Ring<T>)
    requires Shaped(q)
    ensures Contents(q) == [] <==> Empty(q)
  {
    WalkLength(q.slots, q.front, q.rear);
  }

  /** The queue is full, holding `length - 1` payloads, exactly when `(rear + 1) % length == front`. */
  lemma FullIff<T>(q: Ring<T>)
    requires Shaped(q)
    ensures |Contents(q)| == q.length - 1 <==> Full(q)
  {
    WalkLength(q.slots, q.front, q.rear);
    NextIsRemainder(q.rear, q.length);
  }

  /**
   Writing `x` into slot `end` and moving the end one step appends `x` to the
   walk, provided the walk did not already cover all but one slot.
   */
  lemma {:induction false} WalkAppend<T>(slots: seq<Ptr<T>>, i: int, end: int, x: Ptr<T>)
    requires 0 <= i < |slots| && 0 <= end < |slots|
    requires Dist(i, end, |slots|) < |slots| - 1
    ensures Walk(slots[end := x], i, Next(end, |slots|)) == Walk(slots, i, end) + [x]
    decreases Dist(i, end, |slots|)
  {
    var slots' := slots[end := x];
    var n := |slots|;
    assert i != Next(end, n);
    if i == end {
      assert Walk(slots', Next(i, n), Next(end, n)) == [];
    } else {
      WalkAppend(slots, Next(i, n), end, x);
    }
  }

  /** Advancing `front` past a non-empty ring drops exactly the oldest payload. */
  lemma WalkDropFront<T>(q: Ring<T>)
    requires Shaped(q) && !Empty(q)
    ensures Contents(q) != []
    ensures Contents(q.(front := Next(q.front, q.length))) == Contents(q)[1..]
    ensures Contents(q)[0] == q.slots[q.front]
  {
  }
}
