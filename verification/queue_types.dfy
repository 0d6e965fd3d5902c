/**
 The value types of the message queue: C pointers that may be NULL, and the
 enumerations the queue functions take and return (msgQueue/msgQueue.c:7-55).
 */
module QueueTypes {

  /** Largest `queue_length` that `create_simple_queue` accepts (MAX_QUEUE_SIZE_IN_BYTES). */
  const MaxQueueSizeInBytes: int := 1024

  /** A C pointer: either NULL or a reference to a `T`. */
  datatype Ptr<T> = Null | Ptr(target: T)

  /** `queue_status`: the answer of `is_full_queue` and `is_empty_queue`. */
  datatype QueueStatus = QueueIsNormal | QueueNoExist | QueueIsFull | QueueIsEmpty

  /** `cntl_queue_ret`: the answer of push, pop and destroy. CNTL_QUEUE_TIMEOUT is never returned. */
  datatype CntlQueueRet = CntlQueueSuccess | CntlQueueFail | CntlQueueTimeout | CntlQueueParamError

  /** `queue_flag`: the source compares only against IpcBlock; every other flag fails fast. */
  datatype QueueFlag = IpcBlock | IpcNoWait | IpcNoError

  /** `queue_type`: stored by `create_simple_queue`, never consulted afterwards. */
  datatype QueueType = QueueBlock | QueueNoBlock

  /** Remainder with C semantics: truncates toward zero, so the sign follows the dividend. */
  function CRem(a: int, b: int): (r: int)
    requires b != 0
    ensures a >= 0 ==> 0 <= r < Abs(b)
    ensures a < 0 ==> -(Abs(b) as int) < r <= 0
  {
    if a >= 0 then a % Abs(b) else -((-a) % Abs(b))
  }

  function Abs(x: int): nat
  {
    if x >= 0 then x else -x
  }
}
