/**
 The operations of msgQueue/msgQueue.c on the sequential ring: creation,
 the two status queries, non-blocking push and pop, and destruction. A queue
 handle is a `Ptr<Ring<T>>`; a call that mutates the queue returns the
 handle's new state next to the C return code.
 */
module MsgQueue {
  import opened QueueTypes
  import opened RingBuffer

  /** What `push_simple_queue` returns, and the queue state it leaves behind. */
  datatype PushOutcome<T> = PushOutcome(ret: CntlQueueRet, queue: Ptr<Ring<T>>)

  /**
   What `pop_simple_queue` returns, the queue state it leaves behind, and the
   value of the caller's `*data` afterwards.
   */
  datatype PopOutcome<T> = PopOutcome(ret: CntlQueueRet, queue: Ptr<Ring<T>>, data: Ptr<T>)

  /** A ring of `length` slots, both cursors at slot 0; fresh slots hold no payload. */
  function FreshRing<T>(length: nat, queueType: QueueType): Ring<T>
  {
    Ring(0, 0, length, queueType, seq(length, _ => Null))
  }

  /**
   `sizeof(simple_queue)` on an x86-64 glibc target: four `int`s, a 40-byte
   mutex, a 48-byte condition variable, `write_pos` and the 32-byte name,
   padded to pointer alignment. The slots start at this offset.
   */
  const HeaderBytes: int := 144

  /** Where the four `int` fields end: `front`, `rear`, `length`, `queue_type`. */
  const IntFieldsBytes: int := 16

  /** Where the condition variable ends, on the same target: the mutex and condition initialisation write up to here. */
  const SyncEndBytes: int := 104

  /** `sizeof(void*)` on the same target: the size of one slot. */
  const PtrBytes: int := 8

  /** One more than the largest `size_t`. */
  const SizeTModulus: int := 0x1_0000_0000_0000_0000

  /** PTRDIFF_MAX: glibc's `malloc` refuses every request above it. */
  const PtrdiffMax: int := 0x7FFF_FFFF_FFFF_FFFF

  /**
   The byte count `create_simple_queue` asks `malloc` for. The `int` length
   is converted to `size_t` before the multiplication, so the request wraps
   modulo 2^64.
   */
  function MallocRequest(queueLength: int): (n: int)
    ensures 0 <= n < SizeTModulus
  {
    (HeaderBytes + queueLength * PtrBytes) % SizeTModulus
  }

  /**
   `create_simple_queue` as the source writes it. `mallocOk` is whether
   `malloc` could serve the request and `syncOk` whether the mutex and
   condition variable initialised; a request above PTRDIFF_MAX is refused
   whatever `mallocOk` says. Only `queue_length == 0` and
   `queue_length > 1024` are rejected, so a negative length reaches `malloc`
   with a wrapped request: from -1 to -18 the block is smaller than the
   header and the ring gets no slot at all, below -18 the request is close
   to 2^64 and `malloc` fails. On every positive length this agrees with
   the corrected `Create`.
   */
  function CreateAsWritten<T>(name: Ptr<string>, queueLength: int, queueType: QueueType,
                              mallocOk: bool, syncOk: bool): (r: Ptr<Ring<T>>)
    ensures r.Ptr? <==> && name.Ptr? && queueLength != 0 && queueLength <= MaxQueueSizeInBytes
                        && mallocOk && MallocRequest(queueLength) <= PtrdiffMax && syncOk
    ensures r.Ptr? ==> r.target.front == 0 && r.target.rear == 0 && r.target.length == queueLength
    ensures r.Ptr? && queueLength < 0 ==> r.target.slots == []
    ensures queueLength >= 1 ==> r == Create<T>(name, queueLength, queueType, mallocOk, syncOk)
  {
    if name.Null? || queueLength == 0 then Null
    else if queueLength > MaxQueueSizeInBytes then Null
    else if !mallocOk || MallocRequest(queueLength) > PtrdiffMax then Null
    else if !syncOk then Null
    else Ptr(Ring(0, 0, queueLength, queueType, seq(if queueLength > 0 then queueLength else 0, _ => Null)))
  }

  /**
   `queue_length = -1` is accepted but harmless to the ring: C's `%` gives
   `(0 + 1) % -1 == 0 == front`, so the queue is full and empty at once, and
   no push or pop ever reaches a slot.
   */
  lemma MinusOneAlwaysFullAndEmpty(name: Ptr<string>, queueType: QueueType)
    requires name.Ptr?
    ensures var r := CreateAsWritten<int>(name, -1, queueType, true, true);
            && r.Ptr?
            && CRem(r.target.rear + 1, r.target.length) == r.target.front
            && r.target.front == r.target.rear
  {
  }

  /**
   On x86-64, every `queue_length` from -2 to -18 is accepted: the block
   `malloc` is asked for ends before the first slot, the first push passes
   the fullness test (C's `%` keeps the dividend's sign, so
   `(0 + 1) % queue_length == 1 != front`), and it then stores into
   `data[0]`, outside the allocation. From -6 down the block already ends
   before the condition variable, so the mutex and condition initialisation
   of create write past it first; at -17 and -18 so do the stores of
   `length` and `queue_type`.
   */
  lemma NegativeLengthAccepted(name: Ptr<string>, queueLength: int, queueType: QueueType)
    requires name.Ptr? && -18 <= queueLength <= -2
    ensures var r := CreateAsWritten<int>(name, queueLength, queueType, true, true);
            && r.Ptr?
            && !Shaped(r.target)
            && MallocRequest(queueLength) < HeaderBytes + PtrBytes
            && (queueLength <= -6 ==> MallocRequest(queueLength) < SyncEndBytes)
            && (queueLength <= -17 ==> MallocRequest(queueLength) < IntFieldsBytes)
            && CRem(r.target.rear + 1, r.target.length) != r.target.front
            && !(r.target.rear < |r.target.slots|)
  {
  }

  /**
   On x86-64, every `queue_length` of type `int` below -18 wraps the request past
   PTRDIFF_MAX, so `malloc` fails and the source returns NULL.
   */
  lemma LowLengthRefusedByMalloc(name: Ptr<string>, queueLength: int, queueType: QueueType,
                                 mallocOk: bool, syncOk: bool)
    requires -0x8000_0000 <= queueLength <= -19
    ensures MallocRequest(queueLength) > PtrdiffMax
    ensures CreateAsWritten<int>(name, queueLength, queueType, mallocOk, syncOk).Null?
  {
  }

  /**
   `create_simple_queue` with the lower bound the source evidently intends:
   every `queue_length` below 1 is rejected like 0. A created queue is valid,
   empty, has both cursors at 0 and records the requested length and type.
   */
  function Create<T>(name: Ptr<string>, queueLength: int, queueType: QueueType,
                     mallocOk: bool, syncOk: bool): (r: Ptr<Ring<T>>)
    ensures r.Ptr? <==> name.Ptr? && 1 <= queueLength <= MaxQueueSizeInBytes && mallocOk && syncOk
    ensures r.Ptr? ==> && Valid(r.target)
                       && Contents(r.target) == []
                       && r.target.front == 0 && r.target.rear == 0
                       && r.target.length == queueLength
                       && r.target.queueType == queueType
  {
    if name.Null? || queueLength <= 0 then Null
    else if queueLength > MaxQueueSizeInBytes then Null
    else if !mallocOk || !syncOk then Null
    else Ptr(FreshRing(queueLength, queueType))
  }

  /**
   `is_full_queue`: reports a missing queue, and otherwise says full exactly
   when the ring holds `length - 1` payloads. It never answers "empty".
   */
  function IsFullQueue<T>(p: Ptr<Ring<T>>): (r: QueueStatus)
    requires p.Ptr? ==> Valid(p.target)
    ensures r == QueueNoExist <==> p.Null?
    ensures r == QueueIsFull <==> p.Ptr? && |Contents(p.target)| == p.target.length - 1
    ensures r != QueueIsEmpty
  {
    if p.Null? then QueueNoExist
    else if p.target.front == (p.target.rear + 1) % p.target.length then
      FullIff(p.target);
      QueueIsFull
    else
      FullIff(p.target);
      QueueIsNormal
  }

  /**
   `is_empty_queue`: reports a missing queue, and otherwise says empty exactly
   when the ring holds no payload. It never answers "full".
   */
  function IsEmptyQueue<T>(p: Ptr<Ring<T>>): (r: QueueStatus)
    requires p.Ptr? ==> Valid(p.target)
    ensures r == QueueNoExist <==> p.Null?
    ensures r == QueueIsEmpty <==> p.Ptr? && Contents(p.target) == []
    ensures r != QueueIsFull
  {
    if p.Null? then QueueNoExist
    else
      EmptyIff(p.target);
      if p.target.front == p.target.rear then QueueIsEmpty else QueueIsNormal
  }

  /**
   `push_simple_queue`. A NULL queue or payload is a parameter error. On a
   full ring any flag but IpcBlock fails and changes nothing; IpcBlock is
   only modelled where the ring has room, since the source's single wait has
   no sequential meaning. Otherwise the payload is stored at `rear`, `rear`
   advances, `front` stays, and the payload joins the back of the contents.
   */
  function Push<T>(p: Ptr<Ring<T>>, data: Ptr<T>, flg: QueueFlag): (r: PushOutcome<T>)
    requires p.Ptr? ==> Valid(p.target)
    requires p.Ptr? && data.Ptr? && flg == IpcBlock ==> !Full(p.target)
    ensures r.ret == CntlQueueParamError <==> p.Null? || data.Null?
    ensures r.ret != CntlQueueSuccess ==> r.queue == p
    ensures r.ret != CntlQueueTimeout
    ensures p.Ptr? && data.Ptr? ==>
              (r.ret == CntlQueueFail <==> |Contents(p.target)| == p.target.length - 1)
    ensures r.ret == CntlQueueSuccess ==>
              && p.Ptr? && r.queue.Ptr?
              && Valid(r.queue.target)
              && Contents(r.queue.target) == Contents(p.target) + [data]
              && r.queue.target.front == p.target.front
              && r.queue.target.rear == (p.target.rear + 1) % p.target.length
              && r.queue.target.length == p.target.length
              && r.queue.target.queueType == p.target.queueType
              && r.queue.target.slots == p.target.slots[p.target.rear := data]
  {
    if p.Null? || data.Null? then PushOutcome(CntlQueueParamError, p)
    else
      var q := p.target;
      var wCursor := (q.rear + 1) % q.length;
      FullIff(q);
      if wCursor == q.front then PushOutcome(CntlQueueFail, p)
      else
        var q' := q.(slots := q.slots[q.rear := data], rear := wCursor);
        PushPreservesValid(q, data);
        PushOutcome(CntlQueueSuccess, Ptr(q'))
  }

  /** Storing at `rear` and advancing it appends to the contents and keeps the ring valid. */
  lemma PushPreservesValid<T>(q: Ring<T>, data: Ptr<T>)
    requires Valid(q) && data.Ptr? && !Full(q)
    ensures var q' := q.(slots := q.slots[q.rear := data], rear := (q.rear + 1) % q.length);
            Valid(q') && Contents(q') == Contents(q) + [data]
  {
    NextIsRemainder(q.rear, q.length);
    FullIff(q);
    WalkLength(q.slots, q.front, q.rear);
    WalkAppend(q.slots, q.front, q.rear, data);
  }

  /**
   `pop_simple_queue`. `data` is the caller's `*data` before the call. A NULL
   queue is a parameter error; on an empty ring any flag but IpcBlock fails,
   leaving the ring and `*data` alone (IpcBlock is only modelled where the
   ring is non-empty). Otherwise `*data` receives the oldest payload, which is
   never NULL, and `front` advances past it.
   */
  function Pop<T>(p: Ptr<Ring<T>>, data: Ptr<T>, flg: QueueFlag): (r: PopOutcome<T>)
    requires p.Ptr? ==> Valid(p.target)
    requires p.Ptr? && flg == IpcBlock ==> !Empty(p.target)
    ensures p.Null? ==> r == PopOutcome(CntlQueueParamError, p, data)
    ensures p.Ptr? && Contents(p.target) == [] ==> r == PopOutcome(CntlQueueFail, p, data)
    ensures p.Ptr? && Contents(p.target) != [] ==>
              && r.ret == CntlQueueSuccess
              && r.data == Contents(p.target)[0]
              && r.data.Ptr?
              && r.queue.Ptr?
              && Valid(r.queue.target)
              && Contents(r.queue.target) == Contents(p.target)[1..]
              && r.queue.target.front == (p.target.front + 1) % p.target.length
              && r.queue.target.rear == p.target.rear
              && r.queue.target.slots == p.target.slots
  {
    if p.Null? then PopOutcome(CntlQueueParamError, p, data)
    else
      var q := p.target;
      EmptyIff(q);
      if q.front == q.rear then PopOutcome(CntlQueueFail, p, data)
      else
        var q' := q.(front := (q.front + 1) % q.length);
        PopPreservesValid(q);
        PopOutcome(CntlQueueSuccess, Ptr(q'), q.slots[q.front])
  }

  /** Advancing `front` past a non-empty ring drops the head and keeps the ring valid. */
  lemma PopPreservesValid<T>(q: Ring<T>)
    requires Valid(q) && !Empty(q)
    ensures var q' := q.(front := (q.front + 1) % q.length);
            && Valid(q')
            && Contents(q) != []
            && Contents(q') == Contents(q)[1..]
            && q.slots[q.front] == Contents(q)[0]
  {
    NextIsRemainder(q.front, q.length);
    WalkDropFront(q);
    var q' := q.(front := (q.front + 1) % q.length);
    forall k | 0 <= k < |Contents(q')|
      ensures Contents(q')[k].Ptr?
    {
      assert Contents(q')[k] == Contents(q)[k + 1];
    }
  }

  /**
   `destroy_simple_queue`. A NULL queue is a parameter error and releases
   nothing; otherwise the drain loop frees the slots from `front` up to
   `rear`, so `released` lists exactly the resident payloads, oldest first,
   each once, and none of them NULL.
   */
  method Destroy<T>(p: Ptr<Ring<T>>) returns (ret: CntlQueueRet, released: seq<Ptr<T>>)
    requires p.Ptr? ==> Valid(p.target)
    ensures p.Null? ==> ret == CntlQueueParamError && released == []
    ensures p.Ptr? ==> ret == CntlQueueSuccess && released == Contents(p.target)
    ensures forall k | 0 <= k < |released| :: released[k].Ptr?
  {
    if p.Null? {
      return CntlQueueParamError, [];
    }
    var q := p.target;
    var front := q.front;
    released := [];
    while front != q.rear
      invariant 0 <= front < q.length
      invariant released + Walk(q.slots, front, q.rear) == Contents(q)
      decreases Dist(front, q.rear, q.length)
    {
      NextIsRemainder(front, q.length);
      released := released + [q.slots[front]];
      front := (front + 1) % q.length;
    }
    ret := CntlQueueSuccess;
  }
}
