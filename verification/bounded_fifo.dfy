/**
 An independent reference for the ring: a FIFO sequence with a fixed
 capacity, and its non-blocking push and pop. The ring of `length` slots
 behaves, call for call, like this FIFO with capacity `length - 1`; from that
 follow FIFO order and the capacity bound of any run of non-blocking calls on
 a ring.
 */
module BoundedFifo {
  import opened QueueTypes
  import opened RingBuffer
  import opened MsgQueue

  /** The reference queue: payloads oldest first, and how many it may hold. */
  datatype Fifo<T> = Fifo(items: seq<Ptr<T>>, capacity: nat)

  /** One non-blocking call on a queue: push a payload, or pop into the caller's variable. */
  datatype Op<T> = PushOp(payload: Ptr<T>) | PopOp

  /** What the caller sees after one call: the return code and its variable's value. */
  datatype Obs<T> = Obs(ret: CntlQueueRet, data: Ptr<T>)

  /** One call on the reference queue; `out` is the caller's variable before it. */
  function FifoStep<T>(f: Fifo<T>, op: Op<T>, out: Ptr<T>): (Obs<T>, Fifo<T>)
  {
    match op
    case PushOp(x) =>
      if x.Null? then (Obs(CntlQueueParamError, out), f)
      else if |f.items| >= f.capacity then (Obs(CntlQueueFail, out), f)
      else (Obs(CntlQueueSuccess, out), f.(items := f.items + [x]))
    case PopOp =>
      if f.items == [] then (Obs(CntlQueueFail, out), f)
      else (Obs(CntlQueueSuccess, f.items[0]), f.(items := f.items[1..]))
  }

  /** One call on a ring with IpcNoWait; every other flag but IpcBlock takes the same path (`NonBlockingFlagsAgree`). */
  function RingStep<T>(q: Ring<T>, op: Op<T>, out: Ptr<T>): (r: (Obs<T>, Ring<T>))
    requires Valid(q)
    ensures Valid(r.1)
    ensures r.1.length == q.length
  {
    match op
    case PushOp(x) =>
      var o := Push(Ptr(q), x, IpcNoWait);
      (Obs(o.ret, out), o.queue.target)
    case PopOp =>
      var o := Pop(Ptr(q), out, IpcNoWait);
      (Obs(o.ret, o.data), o.queue.target)
  }

  /** Every flag other than IpcBlock gives the same push and the same pop as IpcNoWait, so `RingStep` covers them all. */
  lemma NonBlockingFlagsAgree<T>(p: Ptr<Ring<T>>, x: Ptr<T>, out: Ptr<T>, flg: QueueFlag)
    requires p.Ptr? ==> Valid(p.target)
    requires flg != IpcBlock
    ensures Push(p, x, flg) == Push(p, x, IpcNoWait)
    ensures Pop(p, out, flg) == Pop(p, out, IpcNoWait)
  {
  }

  /** The reference queue a valid ring stands for. */
  function Abstract<T>(q: Ring<T>): Fifo<T>
    requires Valid(q)
  {
    Fifo(Contents(q), q.length - 1)
  }

  /** The calls of `ops` one after another on the reference queue. */
  function RunFifo<T>(f: Fifo<T>, ops: seq<Op<T>>, out: Ptr<T>): seq<Obs<T>>
    decreases |ops|
  {
    if ops == [] then []
    else
      var (o, f') := FifoStep(f, ops[0], out);
      [o] + RunFifo(f', ops[1..], o.data)
  }

  /** The calls of `ops` one after another on a ring. */
  function RunRing<T>(q: Ring<T>, ops: seq<Op<T>>, out: Ptr<T>): seq<Obs<T>>
    requires Valid(q)
    decreases |ops|
  {
    if ops == [] then []
    else
      var (o, q') := RingStep(q, ops[0], out);
      [o] + RunRing(q', ops[1..], o.data)
  }

  /** One call on a ring is observed as the same call on its reference queue, and leaves it abstracting the reference's new state. */
  lemma StepRefines<T>(q: Ring<T>, op: Op<T>, out: Ptr<T>)
    requires Valid(q)
    ensures RingStep(q, op, out).0 == FifoStep(Abstract(q), op, out).0
    ensures Abstract(RingStep(q, op, out).1) == FifoStep(Abstract(q), op, out).1
  {
    ContentsLength(q);
  }

  /** Every run of non-blocking calls on a ring is observed exactly as on its reference queue. */
  lemma {:induction false} RunRefines<T>(q: Ring<T>, ops: seq<Op<T>>, out: Ptr<T>)
    requires Valid(q)
    ensures RunRing(q, ops, out) == RunFifo(Abstract(q), ops, out)
    decreases |ops|
  {
    if ops != [] {
      StepRefines(q, ops[0], out);
      var (o, q') := RingStep(q, ops[0], out);
      RunRefines(q', ops[1..], o.data);
    }
  }

  /** A push call for every payload of `xs`, in order. */
  function Pushes<T>(xs: seq<Ptr<T>>): (ops: seq<Op<T>>)
    ensures |ops| == |xs|
    ensures forall i | 0 <= i < |xs| :: ops[i] == PushOp(xs[i])
  {
    seq(|xs|, i requires 0 <= i < |xs| => PushOp(xs[i]))
  }

  /** `n` pop calls. */
  function Pops<T>(n: nat): (ops: seq<Op<T>>)
    ensures |ops| == n
    ensures forall i | 0 <= i < n :: ops[i] == PopOp
  {
    seq(n, _ => PopOp)
  }

  /** `n` successful calls that leave the caller's variable at `out`. */
  function Successes<T>(n: nat, out: Ptr<T>): seq<Obs<T>>
  {
    seq(n, _ => Obs(CntlQueueSuccess, out))
  }

  /** One successful pop per payload of `xs`, delivering them in order. */
  function Deliveries<T>(xs: seq<Ptr<T>>): seq<Obs<T>>
  {
    seq(|xs|, i requires 0 <= i < |xs| => Obs(CntlQueueSuccess, xs[i]))
  }

  /** Popping as many times as the reference queue holds payloads delivers them all, oldest first. */
  lemma {:induction false} DrainInOrder<T>(f: Fifo<T>, out: Ptr<T>)
    ensures RunFifo(f, Pops(|f.items|), out) == Deliveries(f.items)
    decreases |f.items|
  {
    if f.items != [] {
      var f' := f.(items := f.items[1..]);
      assert Pops<T>(|f.items|)[1..] == Pops(|f'.items|);
      DrainInOrder(f', f.items[0]);
      assert Deliveries(f.items) == [Obs(CntlQueueSuccess, f.items[0])] + Deliveries(f'.items);
    }
  }

  /**
   FIFO order on the reference: pushing non-NULL payloads that fit all
   succeed, and popping everything afterwards delivers the earlier contents
   and then the new payloads, each exactly once, in the order they went in.
   */
  lemma {:induction false} PushesThenPops<T>(f: Fifo<T>, xs: seq<Ptr<T>>, out: Ptr<T>)
    requires forall i | 0 <= i < |xs| :: xs[i].Ptr?
    requires |f.items| + |xs| <= f.capacity
    ensures RunFifo(f, Pushes(xs) + Pops(|f.items| + |xs|), out)
            == Successes(|xs|, out) + Deliveries(f.items + xs)
    decreases |xs|
  {
    if xs == [] {
      assert Pushes(xs) + Pops(|f.items|) == Pops(|f.items|);
      assert f.items + xs == f.items;
      DrainInOrder(f, out);
    } else {
      var f' := f.(items := f.items + [xs[0]]);
      var ops := Pushes(xs) + Pops(|f.items| + |xs|);
      assert ops[0] == PushOp(xs[0]);
      assert ops[1..] == Pushes(xs[1..]) + Pops(|f'.items| + |xs[1..]|);
      PushesThenPops(f', xs[1..], out);
      assert f'.items + xs[1..] == f.items + xs;
      assert Successes(|xs|, out) == [Obs(CntlQueueSuccess, out)] + Successes(|xs[1..]|, out);
    }
  }

  /**
   FIFO order and the capacity bound on a ring: on a valid ring with room
   for the payloads `xs`, non-blocking pushes of `xs` all succeed, and as
   many non-blocking pops then deliver the resident payloads followed by
   `xs`, in order.
   */
  lemma RingPushesThenPops<T>(q: Ring<T>, xs: seq<Ptr<T>>, out: Ptr<T>)
    requires Valid(q)
    requires forall i | 0 <= i < |xs| :: xs[i].Ptr?
    requires |Contents(q)| + |xs| <= q.length - 1
    ensures RunRing(q, Pushes(xs) + Pops(|Contents(q)| + |xs|), out)
            == Successes(|xs|, out) + Deliveries(Contents(q) + xs)
  {
    RunRefines(q, Pushes(xs) + Pops(|Contents(q)| + |xs|), out);
    PushesThenPops(Abstract(q), xs, out);
  }

  /**
   A full ring refuses every further non-blocking push and is left as it
   was: it never holds more than `length - 1` payloads.
   */
  lemma FullRefusesPush<T>(q: Ring<T>, x: Ptr<T>, flg: QueueFlag)
    requires Valid(q) && x.Ptr? && flg != IpcBlock
    requires |Contents(q)| == q.length - 1
    ensures Push(Ptr(q), x, flg) == PushOutcome(CntlQueueFail, Ptr(q))
  {
  }

  /** A run is its first call followed by the run of the rest from the state that call leaves. */
  lemma RunFifoCons<T>(f: Fifo<T>, op: Op<T>, rest: seq<Op<T>>, out: Ptr<T>)
    ensures var (o, f') := FifoStep(f, op, out);
            RunFifo(f, [op] + rest, out) == [o] + RunFifo(f', rest, o.data)
  {
    assert ([op] + rest)[1..] == rest;
  }

  /** The last five calls of the length-3 walk-through, on the reference queue holding A and B. */
  lemma ScenarioTail(a: Ptr<int>, b: Ptr<int>, c: Ptr<int>)
    requires a.Ptr? && b.Ptr? && c.Ptr?
    ensures RunFifo(Fifo([a, b], 2), [PopOp, PushOp(c), PopOp, PopOp, PopOp], Null)
            == [Obs(CntlQueueSuccess, a), Obs(CntlQueueSuccess, a), Obs(CntlQueueSuccess, b),
                Obs(CntlQueueSuccess, c), Obs(CntlQueueFail, c)]
  {
    var S, F := CntlQueueSuccess, CntlQueueFail;
    var r0: seq<Op<int>> := [];
    var r1 := [PopOp] + r0;
    var r2 := [PopOp] + r1;
    var r3 := [PopOp] + r2;
    var r4 := [PushOp(c)] + r3;
    RunFifoCons(Fifo([], 2), PopOp, r0, c);
    assert RunFifo(Fifo([], 2), r1, c) == [Obs(F, c)];
    RunFifoCons(Fifo([c], 2), PopOp, r1, b);
    assert FifoStep(Fifo([c], 2), PopOp, b) == (Obs(S, c), Fifo([], 2));
    assert RunFifo(Fifo([c], 2), r2, b) == [Obs(S, c), Obs(F, c)];
    RunFifoCons(Fifo([b, c], 2), PopOp, r2, a);
    assert FifoStep(Fifo([b, c], 2), PopOp, a) == (Obs(S, b), Fifo([c], 2));
    assert RunFifo(Fifo([b, c], 2), r3, a) == [Obs(S, b), Obs(S, c), Obs(F, c)];
    RunFifoCons(Fifo([b], 2), PushOp(c), r3, a);
    assert [b] + [c] == [b, c];
    assert FifoStep(Fifo([b], 2), PushOp(c), a) == (Obs(S, a), Fifo([b, c], 2));
    assert RunFifo(Fifo([b], 2), r4, a) == [Obs(S, a), Obs(S, b), Obs(S, c), Obs(F, c)];
    RunFifoCons(Fifo([a, b], 2), PopOp, r4, Null);
    assert FifoStep(Fifo([a, b], 2), PopOp, Null) == (Obs(S, a), Fifo([b], 2));
    assert [PopOp] + r4 == [PopOp, PushOp(c), PopOp, PopOp, PopOp];
  }

  /** The length-3 walk-through on the reference queue of capacity 2. */
  lemma ScenarioOnFifo(a: Ptr<int>, b: Ptr<int>, c: Ptr<int>)
    requires a.Ptr? && b.Ptr? && c.Ptr?
    ensures RunFifo(Fifo([], 2), [PushOp(a), PushOp(b), PushOp(c), PopOp, PushOp(c), PopOp, PopOp, PopOp], Null)
            == [Obs(CntlQueueSuccess, Null), Obs(CntlQueueSuccess, Null), Obs(CntlQueueFail, Null),
                Obs(CntlQueueSuccess, a), Obs(CntlQueueSuccess, a), Obs(CntlQueueSuccess, b),
                Obs(CntlQueueSuccess, c), Obs(CntlQueueFail, c)]
  {
    var S, F := CntlQueueSuccess, CntlQueueFail;
    var r5 := [PopOp, PushOp(c), PopOp, PopOp, PopOp];
    var r6 := [PushOp(c)] + r5;
    var r7 := [PushOp(b)] + r6;
    ScenarioTail(a, b, c);
    RunFifoCons(Fifo([a, b], 2), PushOp(c), r5, Null);
    assert FifoStep(Fifo([a, b], 2), PushOp(c), Null) == (Obs(F, Null), Fifo([a, b], 2));
    RunFifoCons(Fifo([a], 2), PushOp(b), r6, Null);
    assert [a] + [b] == [a, b];
    assert FifoStep(Fifo([a], 2), PushOp(b), Null) == (Obs(S, Null), Fifo([a, b], 2));
    RunFifoCons(Fifo([], 2), PushOp(a), r7, Null);
    assert [] + [a] == [a];
    assert FifoStep(Fifo([], 2), PushOp(a), Null) == (Obs(S, Null), Fifo([a], 2));
    assert [PushOp(a)] + r7 == [PushOp(a), PushOp(b), PushOp(c), PopOp, PushOp(c), PopOp, PopOp, PopOp];
  }

  /**
   The walk-through of a queue of length 3: A and B are accepted, C is
   refused because only two slots are usable, popping yields A, C is then
   accepted, the next pops yield B and C, and a final pop finds the queue
   empty and leaves the caller's variable holding C.
   */
  lemma LengthThreeScenario()
    ensures Create<int>(Ptr("msg queue example"), 3, QueueNoBlock, true, true).Ptr?
    ensures var q := Create<int>(Ptr("msg queue example"), 3, QueueNoBlock, true, true).target;
            var a, b, c := Ptr(1), Ptr(2), Ptr(3);
            RunRing(q, [PushOp(a), PushOp(b), PushOp(c), PopOp, PushOp(c), PopOp, PopOp, PopOp], Null)
            == [Obs(CntlQueueSuccess, Null), Obs(CntlQueueSuccess, Null), Obs(CntlQueueFail, Null),
                Obs(CntlQueueSuccess, a), Obs(CntlQueueSuccess, a), Obs(CntlQueueSuccess, b),
                Obs(CntlQueueSuccess, c), Obs(CntlQueueFail, c)]
  {
    var q := Create<int>(Ptr("msg queue example"), 3, QueueNoBlock, true, true).target;
    var a, b, c := Ptr(1), Ptr(2), Ptr(3);
    assert Abstract(q) == Fifo([], 2);
    RunRefines(q, [PushOp(a), PushOp(b), PushOp(c), PopOp, PushOp(c), PopOp, PopOp, PopOp], Null);
    ScenarioOnFifo(a, b, c);
  }
}
