/**
 The queue as the source lays it out: one heap object holding the cursors,
 the length, the stored type and an array of payload slots, updated in place.
 A ghost `contents` tracks the payloads from `front` to `rear`, and each
 operation is proved to act exactly as its counterpart in `MsgQueue` on the
 object's current state.
 */
module QueueObject {
  import opened QueueTypes
  import opened RingBuffer
  import MsgQueue

  /** `simple_queue` without its mutex, condition variable and name. */
  class SimpleQueue<T> {
    var front: int
    var rear: int
    var length: int
    var queueType: QueueType
    var data: array<Ptr<T>>
    ghost var contents: seq<Ptr<T>>

    /** The object's state as a ring value. */
    function Snapshot(): Ring<T>
      reads this, data
    {
      Ring(front, rear, length, queueType, data[..])
    }

    /** The ring is valid and `contents` is what it holds. */
    ghost predicate Valid()
      reads this, data
    {
      && RingBuffer.Valid(Snapshot())
      && contents == Contents(Snapshot())
    }

    /** The fields set by `create_simple_queue` once its allocation succeeded. */
    constructor (queueLength: int, queueType: QueueType)
      requires 1 <= queueLength
      ensures Valid()
      ensures Snapshot() == MsgQueue.FreshRing(queueLength, queueType)
      ensures contents == []
      ensures fresh(data)
    {
      front := 0;
      rear := 0;
      length := queueLength;
      this.queueType := queueType;
      data := new Ptr<T>[queueLength](_ => Null);
      contents := [];
      new;
      assert data[..] == seq(queueLength, _ => Null);
    }
  }

  /** `create_simple_queue`: a fresh object exactly when the functional model creates a ring, in that ring's state. */
  method CreateSimpleQueue<T>(name: Ptr<string>, queueLength: int, queueType: QueueType,
                              mallocOk: bool, syncOk: bool) returns (q: SimpleQueue?<T>)
    ensures q == null <==> MsgQueue.Create<T>(name, queueLength, queueType, mallocOk, syncOk).Null?
    ensures q != null ==> && fresh(q) && fresh(q.data) && q.Valid() && q.contents == []
                          && q.Snapshot() == MsgQueue.Create<T>(name, queueLength, queueType, mallocOk, syncOk).target
  {
    if name.Null? || queueLength <= 0 {
      return null;
    }
    if queueLength > MaxQueueSizeInBytes {
      return null;
    }
    if !mallocOk || !syncOk {
      return null;
    }
    q := new SimpleQueue(queueLength, queueType);
  }

  /** `is_full_queue` on the object: the functional model's answer for its current state. */
  method IsFullQueue<T>(q: SimpleQueue?<T>) returns (r: QueueStatus)
    requires q != null ==> q.Valid()
    ensures q == null ==> r == QueueNoExist
    ensures q != null ==> r == MsgQueue.IsFullQueue(Ptr(q.Snapshot()))
    ensures q != null ==> (r == QueueIsFull <==> |q.contents| == q.length - 1)
  {
    if q == null {
      return QueueNoExist;
    }
    r := if q.front == (q.rear + 1) % q.length then QueueIsFull else QueueIsNormal;
    FullIff(q.Snapshot());
  }

  /** `is_empty_queue` on the object: the functional model's answer for its current state. */
  method IsEmptyQueue<T>(q: SimpleQueue?<T>) returns (r: QueueStatus)
    requires q != null ==> q.Valid()
    ensures q == null ==> r == QueueNoExist
    ensures q != null ==> r == MsgQueue.IsEmptyQueue(Ptr(q.Snapshot()))
    ensures q != null ==> (r == QueueIsEmpty <==> q.contents == [])
  {
    if q == null {
      return QueueNoExist;
    }
    r := if q.front == q.rear then QueueIsEmpty else QueueIsNormal;
    EmptyIff(q.Snapshot());
  }

  /**
   `push_simple_queue` in place: stores into `data[rear]` and advances `rear`
   exactly when the functional push succeeds, leaving the object in the
   functional push's resulting state and appending to `contents`.
   */
  method PushSimpleQueue<T>(q: SimpleQueue?<T>, x: Ptr<T>, flg: QueueFlag) returns (ret: CntlQueueRet)
    requires q != null ==> q.Valid()
    requires q != null && x.Ptr? && flg == IpcBlock ==> !Full(q.Snapshot())
    modifies if q == null then {} else {q, q.data}
    ensures q == null ==> ret == CntlQueueParamError
    ensures q != null ==> && q.Valid()
                          && q.data == old(q.data)
                          && var o := MsgQueue.Push(Ptr(old(q.Snapshot())), x, flg);
                             ret == o.ret && Ptr(q.Snapshot()) == o.queue
    ensures q != null && ret == CntlQueueSuccess ==> q.contents == old(q.contents) + [x]
    ensures q != null && ret != CntlQueueSuccess ==> q.contents == old(q.contents)
  {
    if q == null || x.Null? {
      return CntlQueueParamError;
    }
    ghost var before := q.Snapshot();
    var wCursor := (q.rear + 1) % q.length;
    if wCursor == q.front {
      return CntlQueueFail;
    }
    q.data[q.rear] := x;
    q.rear := wCursor;
    q.contents := q.contents + [x];
    assert q.data[..] == before.slots[before.rear := x];
    MsgQueue.PushPreservesValid(before, x);
    ret := CntlQueueSuccess;
  }

  /**
   `pop_simple_queue` in place. `cur` is the caller's `*data` before the call
   and `out` after it: the oldest payload on success, `cur` otherwise. The
   object ends in the functional pop's resulting state.
   */
  method PopSimpleQueue<T>(q: SimpleQueue?<T>, cur: Ptr<T>, flg: QueueFlag) returns (ret: CntlQueueRet, out: Ptr<T>)
    requires q != null ==> q.Valid()
    requires q != null && flg == IpcBlock ==> !Empty(q.Snapshot())
    modifies if q == null then {} else {q}
    ensures q == null ==> ret == CntlQueueParamError && out == cur
    ensures q != null ==> && q.Valid()
                          && q.data == old(q.data)
                          && var o := MsgQueue.Pop(Ptr(old(q.Snapshot())), cur, flg);
                             ret == o.ret && out == o.data && Ptr(q.Snapshot()) == o.queue
    ensures q != null && ret == CntlQueueSuccess ==>
              old(q.contents) != [] && out == old(q.contents)[0] && q.contents == old(q.contents)[1..]
    ensures q != null && ret != CntlQueueSuccess ==> q.contents == old(q.contents) && out == cur
  {
    if q == null {
      return CntlQueueParamError, cur;
    }
    ghost var before := q.Snapshot();
    if q.front == q.rear {
      EmptyIff(before);
      return CntlQueueFail, cur;
    }
    out := q.data[q.front];
    q.front := (q.front + 1) % q.length;
    MsgQueue.PopPreservesValid(before);
    q.contents := q.contents[1..];
    ret := CntlQueueSuccess;
  }

  /**
   `destroy_simple_queue` on the object: the payloads released by the drain
   are exactly `contents`, oldest first.
   */
  method DestroySimpleQueue<T>(q: SimpleQueue?<T>) returns (ret: CntlQueueRet, released: seq<Ptr<T>>)
    requires q != null ==> q.Valid()
    ensures q == null ==> ret == CntlQueueParamError && released == []
    ensures q != null ==> ret == CntlQueueSuccess && released == q.contents
  {
    if q == null {
      return CntlQueueParamError, [];
    }
    ret, released := MsgQueue.Destroy(Ptr(q.Snapshot()));
  }
}
