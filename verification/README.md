# Ring-buffer message queue, modelled in Dafny

This project models the core of `msgQueue/msgQueue.c`: a fixed-capacity
message queue (`simple_queue`) that hands opaque payload pointers from
producers to consumers. The queue is an array of `length` payload slots with
two cursors, `front` (the next slot to pop) and `rear` (the next slot to
push). Both cursors advance by `(x + 1) % length`. One slot is always left
unused, so at most `length - 1` payloads are resident. Once the mutex and
condition variable are stripped away, every operation is a sequential state
transition on `(front, rear, data[])`, and that is what is modelled.

Files and modules:

- `queue_types.dfy`, module `QueueTypes`: the C value types. `Ptr<T>` is a
  pointer that may be NULL. The enumerations are `queue_status`,
  `cntl_queue_ret`, `queue_flag` and `queue_type`. The constant is
  `MAX_QUEUE_SIZE_IN_BYTES` = 1024. `CRem` is C's truncating remainder.
- `ring.dfy`, module `RingBuffer`: the ring state `Ring<T>` and its
  invariant `Valid`. `Contents` gives the abstract contents: the payloads in
  slots `front, front+1, ..., rear-1`, taken modulo `length`, oldest first.
  The module also has the lemmas that tie the source's cursor tests to the
  contents.
- `msg_queue.dfy`, module `MsgQueue`: the operations as pure functions on a
  handle `Ptr<Ring<T>>`, where a NULL handle is `Null`. These are
  `create_simple_queue`, `is_full_queue`, `is_empty_queue`, the
  non-blocking `push_simple_queue` and `pop_simple_queue`, and
  `destroy_simple_queue`. Destroy is a method: its drain loop returns the
  released payloads.
- `bounded_fifo.dfy`, module `BoundedFifo`: an independent reference, a
  FIFO sequence with capacity `length - 1`. It includes a proof that every
  run of non-blocking calls on a ring behaves exactly like that FIFO. FIFO
  order, the capacity bound and the length-3 walk-through follow from it.
- `queue_object.dfy`, module `QueueObject`: the in-place rendering. It is a
  class holding an `array` of slots plus `front`, `rear` and `length`, with a
  ghost `contents` sequence and a `Valid()` predicate. Each method is proved
  to leave the object in the state the functional operation computes.

Modelling choices:

- A payload is a `Ptr<T>`. `push_simple_queue` rejects a NULL payload, and
  `Valid` says that no resident slot holds NULL.
- Slots that were never written are modelled as `Null`.
- `malloc` failure and mutex/condition-variable initialisation failure are
  the boolean parameters `mallocOk` and `syncOk` of `Create`. The byte count
  passed to `malloc` (msgQueue/msgQueue.c:78) is computed for an x86-64 glibc
  target: `sizeof(simple_queue)` is 144, a slot is 8 bytes, the `int` length
  wraps as a `size_t`, and a request above PTRDIFF_MAX always fails.
- `free` in destroy is modelled as the sequence of released payloads.
- `queue_type` is stored in the ring (msgQueue/msgQueue.c:84) but no
  operation reads it.
- Any flag other than `IPC_BLOCK` takes the fail-fast path
  (msgQueue/msgQueue.c:167, :203).
- The size ceiling enforced by the code is `MAX_QUEUE_SIZE_IN_BYTES` = 1024
  (msgQueue/msgQueue.c:7, :73). `MQ_SIZE_MAX` = 512 (:9) is never used, and
  the model follows the code.
- The code returns `CNTL_QUEUE_FAIL` both for a push on a full queue and
  for a pop on an empty one (msgQueue/msgQueue.c:175, :211), and checks the
  queue name only for NULL (:68).
- The cursors are C `int`s, but they never exceed 1024, so no wrap-around
  needs modelling. On the non-negative operands of a valid ring, Dafny's `%`
  agrees with C's.

## Model

| member | source | states |
|---|---|---|
| RingBuffer.NextIsRemainder | msgQueue/msgQueue.c:216 | the cursor step `(x + 1) % length` stays inside `[0, length)` and moves to the next slot, wrapping from `length - 1` to 0 |
| RingBuffer.ContentsLength | msgQueue/msgQueue.c:163-164 | the number of resident payloads equals `(rear - front + length) % length` and never exceeds `length - 1` |
| RingBuffer.EmptyIff | msgQueue/msgQueue.c:140 | the queue holds no payload exactly when `front == rear` |
| RingBuffer.FullIff | msgQueue/msgQueue.c:117 | the queue holds `length - 1` payloads exactly when `front == (rear + 1) % length` |
| RingBuffer.WalkAppend | msgQueue/msgQueue.c:180-181 | storing a payload at the end slot and advancing the end by one appends exactly that payload to the walked contents, when at least one slot is still free |
| RingBuffer.WalkDropFront | msgQueue/msgQueue.c:215-216 | on a non-empty ring the slot at `front` holds the oldest payload, and advancing `front` removes exactly that payload from the contents |
| MsgQueue.CreateAsWritten | msgQueue/msgQueue.c:64-103 | the creation checks as written: a queue is returned exactly when the name is non-NULL, `queue_length != 0`, `queue_length <= 1024`, the wrapped `malloc` request is at most PTRDIFF_MAX, and allocation and initialisation succeed; negative lengths get a ring with no slots; for every positive length the result is that of the corrected `Create` |
| MsgQueue.MinusOneAlwaysFullAndEmpty | msgQueue/msgQueue.c:68-84 | `queue_length = -1` is accepted, and since C's `(0 + 1) % -1 == 0 == front` the queue is full and empty at once, so no push or pop reaches a slot |
| MsgQueue.NegativeLengthAccepted | msgQueue/msgQueue.c:68-84 | on x86-64, every `queue_length` from -2 to -18 is accepted with a `malloc` block that ends before `data[0]`; C's remainder then makes the first push pass the fullness test and store outside the allocation; from -6 down the block ends before the condition variable, and at -17 and -18 before `length` and `queue_type`, so create itself already writes past it |
| MsgQueue.LowLengthRefusedByMalloc | msgQueue/msgQueue.c:78-79 | on x86-64, every `int` length below -18 wraps the `malloc` request past PTRDIFF_MAX, so creation returns NULL |
| MsgQueue.Create | msgQueue/msgQueue.c:64-103 | a queue is returned exactly when the name is non-NULL, `1 <= queue_length <= 1024`, and allocation and initialisation succeed; it is then valid and empty, with `front == rear == 0`, the requested length and the stored type |
| MsgQueue.IsFullQueue | msgQueue/msgQueue.c:105-126 | NULL gives QUEUE_NO_EXIST; otherwise QUEUE_IS_FULL exactly when `length - 1` payloads are resident, else QUEUE_IS_NORMAL; never QUEUE_IS_EMPTY |
| MsgQueue.IsEmptyQueue | msgQueue/msgQueue.c:128-149 | NULL gives QUEUE_NO_EXIST; otherwise QUEUE_IS_EMPTY exactly when no payload is resident, else QUEUE_IS_NORMAL; never QUEUE_IS_FULL |
| MsgQueue.Push | msgQueue/msgQueue.c:151-188 | a NULL queue or payload gives CNTL_QUEUE_PARAM_ERROR; on a full queue a non-blocking flag gives CNTL_QUEUE_FAIL with the state unchanged; otherwise CNTL_QUEUE_SUCCESS, the payload stored at the old `rear` and every other slot, `front`, the length and the type kept, `rear` advanced, and contents `old + [data]` |
| MsgQueue.PushPreservesValid | msgQueue/msgQueue.c:180-181 | a store at `rear` plus the cursor advance on a non-full valid ring keeps it valid and appends the payload to the contents |
| MsgQueue.Pop | msgQueue/msgQueue.c:190-222 | a NULL queue gives CNTL_QUEUE_PARAM_ERROR; on an empty queue a non-blocking flag gives CNTL_QUEUE_FAIL with the state and `*data` unchanged; otherwise CNTL_QUEUE_SUCCESS, `*data` set to the oldest payload (never NULL), `front` advanced, and contents `old[1..]` |
| MsgQueue.PopPreservesValid | msgQueue/msgQueue.c:215-216 | advancing `front` on a non-empty valid ring keeps it valid, drops exactly the head of the contents, and the slot read is that head |
| MsgQueue.Destroy | msgQueue/msgQueue.c:224-247 | NULL gives CNTL_QUEUE_PARAM_ERROR and releases nothing; otherwise the drain from `front` to `rear` releases exactly the resident payloads, each once, oldest first, none NULL |
| BoundedFifo.NonBlockingFlagsAgree | msgQueue/msgQueue.c:167-212 | every flag other than IPC_BLOCK gives exactly the push and the pop that IPC_NOWAIT gives, so the refinement below covers all of them |
| BoundedFifo.StepRefines | msgQueue/msgQueue.c:151-222 | one non-blocking push or pop on a ring returns what the same call on a FIFO of capacity `length - 1` returns, and leaves the ring standing for that FIFO's new contents |
| BoundedFifo.RunRefines | msgQueue/msgQueue.c:151-222 | every sequence of non-blocking pushes and pops on a ring is observed exactly as on the FIFO of capacity `length - 1` |
| BoundedFifo.DrainInOrder | msgQueue/msgQueue.c:215-216 | popping the FIFO as many times as it holds payloads delivers all of them, oldest first |
| BoundedFifo.PushesThenPops | msgQueue/msgQueue.c:180-216 | pushing non-NULL payloads that fit all succeed, and popping everything afterwards delivers the earlier contents and then the new payloads in push order |
| BoundedFifo.RingPushesThenPops | msgQueue/msgQueue.c:151-222 | FIFO order on the ring: with room for `xs`, pushes of `xs` all succeed, and the pops that follow deliver the resident payloads and then `xs`, in order |
| BoundedFifo.FullRefusesPush | msgQueue/msgQueue.c:163-176 | on a ring holding `length - 1` payloads, a push of any non-NULL payload, with any flag other than IPC_BLOCK, returns CNTL_QUEUE_FAIL and leaves the ring as it was |
| BoundedFifo.LengthThreeScenario | msgQueue/msgQueue.c:151-222 | on a queue of length 3: push A and push B succeed, push C fails, pop gives A, push C succeeds, the pops give B then C, and the last pop fails, leaving the caller's variable at C |
| QueueObject.CreateSimpleQueue | msgQueue/msgQueue.c:64-103 | the object is created exactly when the functional model creates a ring, and it is then valid, empty and in that ring's state |
| QueueObject.IsFullQueue | msgQueue/msgQueue.c:105-126 | on the object: QUEUE_NO_EXIST for NULL, otherwise the functional answer, with QUEUE_IS_FULL exactly when `contents` has `length - 1` payloads |
| QueueObject.IsEmptyQueue | msgQueue/msgQueue.c:128-149 | on the object: QUEUE_NO_EXIST for NULL, otherwise the functional answer, with QUEUE_IS_EMPTY exactly when `contents` is empty |
| QueueObject.PushSimpleQueue | msgQueue/msgQueue.c:151-188 | the in-place push returns the functional push's code and leaves the object in its resulting state; `contents` grows by the payload on success and is unchanged otherwise |
| QueueObject.PopSimpleQueue | msgQueue/msgQueue.c:190-222 | the in-place pop returns the functional pop's code and output and leaves the object in its resulting state; on success the output is the head of `contents` and `contents` loses it |
| QueueObject.DestroySimpleQueue | msgQueue/msgQueue.c:224-247 | destroying the object releases exactly its `contents`, in order; NULL gives CNTL_QUEUE_PARAM_ERROR |

## Left out

- MsgQueue.Push: the `IPC_BLOCK` path on a full queue (msgQueue/msgQueue.c:169) is not modelled. A blocking push is only admitted on a queue with room, where it behaves like a non-blocking one. The source waits once on the condition variable and then stores without checking again, which has no sequential meaning.
- MsgQueue.Pop: the `IPC_BLOCK` path on an empty queue (msgQueue/msgQueue.c:205) is not modelled, for the same reason. A blocking pop is only admitted on a non-empty queue.
- QueueObject.PushSimpleQueue: a blocking push is only admitted on a queue with room, as for MsgQueue.Push. The source's single `pthread_cond_wait` on a full queue (msgQueue/msgQueue.c:169) is followed by the store with no re-check, which has no sequential meaning.
- QueueObject.PopSimpleQueue: a blocking pop is only admitted on a non-empty queue, as for MsgQueue.Pop. The source's single `pthread_cond_wait` on an empty queue (msgQueue/msgQueue.c:205) is followed by the read with no re-check, which has no sequential meaning.
- The mutex and condition variable are not modelled: init, lock, unlock, signal and destroy (msgQueue/msgQueue.c:85-91, :161, :183-184, :198, :218-219, :235-236). They are concurrency plumbing, and each operation is modelled as one atomic step.
- `malloc` and `free` are not modelled as memory operations. Allocation and initialisation success are inputs to `Create`; only the size of the request and glibc's refusal of requests above PTRDIFF_MAX are modelled, with the x86-64 glibc layout (other targets give other header sizes and so other bounds for the negative-length ranges; aarch64 glibc, for one, has a 48-byte mutex and a 152-byte header). The frees in destroy are the returned `released` sequence. Freeing the queue's own storage is not modelled.
- The `queue_name` copy (msgQueue/msgQueue.c:93) is not modelled. Its `strcpy` into 32 bytes can overflow, and the name is only a diagnostic label. Only the NULL-name check is modelled.
- `pop_simple_queue` never checks its `void **data` argument for NULL. The model treats `*data` as a value passed in and returned, so a NULL `data` is outside the model.
- The `write_pos` field (msgQueue/msgQueue.c:21) is never used by the source and is not modelled.
- `CNTL_QUEUE_TIMEOUT` is declared, but no operation returns it.
- All `printf` diagnostics are not modelled, since they are output only.
- The demo driver is not modelled: `send_msg_thread`, `recv_msg_thread`, `main` and the `queue_buf` payload type (msgQueue/msgQueue.c:57-61, :249-362). They spawn threads and do I/O.

## Findings

| source | as written | input that shows it | evidently intended | confidence | as-written member | corrected member |
|---|---|---|---|---|---|---|
| msgQueue/msgQueue.c:68 | `create_simple_queue` rejects only `queue_length == 0`, so a negative length reaches `malloc`; on x86-64, from -2 to -18 the wrapped request is smaller than the header plus one slot (-1 gives a harmless queue that is always full and empty, and below -18 `malloc` fails) | `queue_length = -2`: `malloc` gets 128 bytes and the queue is created with `length = -2`; the first push computes `(0 + 1) % -2 == 1 != front` and stores into `data[0]` at offset 144, outside the allocation; from -6 down (block under 104 bytes) the mutex and condition initialisation at :85 already write past the block during create, and at -17 and -18 so do the stores of `length` and `queue_type` at :83-84 | reject every `queue_length < 1` | medium, not executed | MsgQueue.CreateAsWritten, MsgQueue.NegativeLengthAccepted | MsgQueue.Create |
