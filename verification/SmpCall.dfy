/**
  The cross-CPU call protocol: a shared pool of call structures, a call queue
  and an "IPI sent" flag for every CPU, reference counts on the structures, and
  completion counters on the senders' stacks.

  The protocol is a state machine.  A step is one access to shared state: an
  atomic operation, or everything done while one lock is held.  Handlers return
  and do not make cross-CPU calls themselves.
 */
module SmpCall {
  import opened Options

  const CALLS_PER_CPU := 4

  type CpuId = nat
  type CallId = nat

  /** A completion counter: the stack frame of the sendNo-th send made by a CPU. */
  datatype Frame = Frame(cpu: CpuId, sendNo: nat)

  /** Where the destination's side of a call structure is. */
  datatype Place =
    | Pooled
    | Filling(cpu: CpuId)     // taken from the pool, not yet set up
    | Ready(cpu: CpuId)       // set up, not yet queued
    | Queued(cpu: CpuId)
    | Handling(cpu: CpuId)
    | Finished                // the destination has dropped its reference
    | SenderFrees(cpu: CpuId) // count is zero, on the way back to the pool
    | HandlerFrees(cpu: CpuId)

  /**
    A call structure.  The fields after status are history: steps write them,
    and no step reads them.
   */
  datatype Call = Call(
    count: nat,
    result: Option<Frame>,
    status: int,
    place: Place,
    held: Option<CpuId>,      // the sender that has a reference
    origin: Option<Frame>,    // the counter a synchronous call was sent with
    acks: nat,                // times that counter was decremented for this call
    delivered: Option<int>)   // the status at that moment

  /** What a sender is doing in smp_call_single or smp_call_broadcast. */
  datatype Phase =
    | Get                     // smp_call_get
    | Fill(call: CallId)
    | Enqueue(call: CallId)   // smp_call_queue
    | Await(kept: Option<CallId>)
    | Drop(call: CallId)      // smp_call_release
    | Free(call: CallId)      // smp_call_release, count reached zero

  /** todo is the list of destinations not yet queued to; acked is the counter on the stack. */
  datatype Send =
    | NotSending
    | Sending(single: bool, sync: bool, todo: seq<CpuId>, acked: int, phase: Phase)

  /** What a CPU is doing in smp_ipi_handler, which may run on top of a spinning send. */
  datatype Handler =
    | NoHandler
    | Entered
    | Relock
    | Running(call: CallId)
    | AckDec(call: CallId)    // smp_call_acknowledge, before atomic_dec
    | AckClear(call: CallId)  // smp_call_acknowledge, after atomic_dec
    | Returned(call: CallId, ret: int)
    | FinDec(call: CallId)    // acknowledging after the return, before atomic_dec
    | Releasing(call: CallId)
    | Freeing(call: CallId)
  {
    /** The handler holds the destination's reference to a call. */
    predicate Handles(x: CallId) {
      (Running? || AckDec? || AckClear? || Returned? || FinDec? || Releasing?) && call == x
    }
  }

  datatype Cpu = Cpu(
    queue: seq<CallId>,
    ipiSent: bool,
    pending: bool,            // an IPI is on its way
    sends: nat,               // number of sends started
    send: Send,
    handler: Handler)

  /** dangling becomes true when a counter is decremented whose frame is gone. */
  datatype State = State(cpus: seq<Cpu>, calls: seq<Call>, pool: seq<CallId>, dangling: bool)
  {
    function WithCpu(c: CpuId, k: Cpu): State
      requires c < |cpus|
    {
      this.(cpus := cpus[c := k])
    }

    function WithCall(x: CallId, k: Call): State
      requires x < |calls|
    {
      this.(calls := calls[x := k])
    }

    function WithPhase(c: CpuId, p: Phase): State
      requires c < |cpus| && cpus[c].send.Sending?
    {
      this.(cpus := cpus[c := cpus[c].(send := cpus[c].send.(phase := p))])
    }

    function WithHandler(c: CpuId, h: Handler): State
      requires c < |cpus|
    {
      this.(cpus := cpus[c := cpus[c].(handler := h)])
    }
  }

  datatype Step =
    | StartStep(c: CpuId, single: bool, sync: bool, todo: seq<CpuId>)
    | TakeStep(c: CpuId)
    | SpinStep(c: CpuId)
    | SetUpStep(c: CpuId)
    | PostStep(c: CpuId)
    | LeaveStep(c: CpuId)
    | DropStep(c: CpuId)
    | RecycleStep(c: CpuId)
    | InterruptStep(c: CpuId)
    | LockStep(c: CpuId)
    | AcknowledgeStep(c: CpuId, x: CallId, status: int)
    | DecrementStep(c: CpuId, x: CallId)
    | ClearStep(c: CpuId, x: CallId)
    | ReturnStep(c: CpuId, x: CallId, ret: int)
    | FinishStep(c: CpuId, x: CallId)
    | ReleaseStep(c: CpuId, x: CallId)
    | HandlerRecycleStep(c: CpuId, x: CallId)

  /** The sender itself can move: it is not interrupted by its handler. */
  predicate SenderAt(s: State, c: CpuId) {
    c < |s.cpus| && s.cpus[c].send.Sending? && s.cpus[c].handler.NoHandler?
  }

  /** The sender's next phase once it has let go of a structure. */
  function Continue(u: Send): Send
    requires u.Sending?
  {
    if u.single then NotSending
    else if u.todo != [] then u.(phase := Get)
    else if u.sync then u.(phase := Await(None))
    else NotSending
  }

  // smp_call_single and smp_call_broadcast up to the first smp_call_get

  predicate CanStart(s: State, c: CpuId, single: bool, todo: seq<CpuId>) {
    && c < |s.cpus| && s.cpus[c].send.NotSending? && s.cpus[c].handler.NoHandler?
    && (forall i :: 0 <= i < |todo| ==> todo[i] < |s.cpus| && todo[i] != c)
    && (single ==> |todo| == 1)
  }

  function Start(s: State, c: CpuId, single: bool, sync: bool, todo: seq<CpuId>): State
    requires CanStart(s, c, single, todo)
  {
    var u, job := s.cpus[c], Sending(single, sync, todo, 0, Get);
    s.WithCpu(c, u.(sends := u.sends + 1, send := if single then job else Continue(job)))
  }

  // smp_call_get: take the first structure, or run the handler while there is none

  predicate CanTake(s: State, c: CpuId) {
    SenderAt(s, c) && s.cpus[c].send.phase.Get? && s.pool != [] && s.pool[0] < |s.calls|
  }

  function TakeFirst(s: State, c: CpuId): State
    requires CanTake(s, c)
  {
    var x := s.pool[0];
    s.(pool := s.pool[1..]).WithCall(x, s.calls[x].(place := Filling(c))).WithPhase(c, Fill(x))
  }

  /** The sender finds the pool empty, or its counter not yet zero, and calls smp_ipi_handler. */
  predicate CanSpin(s: State, c: CpuId) {
    SenderAt(s, c) &&
    ((s.cpus[c].send.phase.Get? && s.pool == []) || (s.cpus[c].send.phase.Await? && s.cpus[c].send.acked != 0))
  }

  function Spin(s: State, c: CpuId): State
    requires CanSpin(s, c)
  {
    s.WithHandler(c, Entered)
  }

  predicate CanSetUp(s: State, c: CpuId) {
    SenderAt(s, c) && s.cpus[c].send.phase.Fill? && s.cpus[c].send.phase.call < |s.calls|
  }

  function SetUp(s: State, c: CpuId): State
    requires CanSetUp(s, c)
  {
    var u := s.cpus[c];
    var x := u.send.phase.call;
    var f := if u.send.sync then Some(Frame(c, u.sends)) else None;
    var k := s.calls[x].(count := 2, result := f, place := Ready(c), held := Some(c),
                         origin := f, acks := 0, delivered := None);
    var acked := if u.send.sync then u.send.acked + 1 else u.send.acked;
    s.WithCall(x, k).WithCpu(c, u.(send := u.send.(acked := acked, phase := Enqueue(x))))
  }

  // smp_call_queue, under the destination's lock

  predicate CanPost(s: State, c: CpuId) {
    SenderAt(s, c) &&
    var u := s.cpus[c].send;
    u.phase.Enqueue? && u.phase.call < |s.calls| && u.todo != [] && u.todo[0] < |s.cpus| && u.todo[0] != c
  }

  function Post(s: State, c: CpuId): State
    requires CanPost(s, c)
  {
    var u := s.cpus[c];
    var x, d := u.send.phase.call, u.send.todo[0];
    var next := if u.send.single && u.send.sync then Await(Some(x)) else Drop(x);
    var v := s.cpus[d];
    s.WithCall(x, s.calls[x].(place := Queued(d)))
     .WithCpu(c, u.(send := u.send.(todo := u.send.todo[1..], phase := next)))
     .WithCpu(d, v.(queue := v.queue + [x], ipiSent := true, pending := v.pending || !v.ipiSent))
  }

  predicate CanLeave(s: State, c: CpuId) {
    SenderAt(s, c) && s.cpus[c].send.phase.Await? && s.cpus[c].send.acked == 0
  }

  function Leave(s: State, c: CpuId): State
    requires CanLeave(s, c)
  {
    var u := s.cpus[c];
    var send := match u.send.phase.kept
      case Some(x) => u.send.(phase := Drop(x))
      case None => NotSending;
    s.WithCpu(c, u.(send := send))
  }

  // smp_call_release by the sender

  predicate CanDrop(s: State, c: CpuId) {
    SenderAt(s, c) && s.cpus[c].send.phase.Drop? && s.cpus[c].send.phase.call < |s.calls| &&
    s.calls[s.cpus[c].send.phase.call].count > 0
  }

  function DropRef(s: State, c: CpuId): State
    requires CanDrop(s, c)
  {
    var u := s.cpus[c];
    var x := u.send.phase.call;
    var k := s.calls[x];
    if k.count == 1 then
      s.WithCall(x, k.(count := 0, held := None, place := SenderFrees(c))).WithPhase(c, Free(x))
    else
      s.WithCall(x, k.(count := k.count - 1, held := None)).WithCpu(c, u.(send := Continue(u.send)))
  }

  predicate CanRecycle(s: State, c: CpuId) {
    SenderAt(s, c) && s.cpus[c].send.phase.Free? && s.cpus[c].send.phase.call < |s.calls|
  }

  function Recycle(s: State, c: CpuId): State
    requires CanRecycle(s, c)
  {
    var u := s.cpus[c];
    var x := u.send.phase.call;
    s.(pool := [x] + s.pool).WithCall(x, s.calls[x].(place := Pooled)).WithCpu(c, u.(send := Continue(u.send)))
  }

  // An interrupt is taken only while no send has interrupts disabled

  predicate CanInterrupt(s: State, c: CpuId) {
    c < |s.cpus| && s.cpus[c].pending && s.cpus[c].send.NotSending? && s.cpus[c].handler.NoHandler?
  }

  function Interrupt(s: State, c: CpuId): State
    requires CanInterrupt(s, c)
  {
    s.WithCpu(c, s.cpus[c].(pending := false, handler := Entered))
  }

  // smp_ipi_handler, under the CPU's own lock

  predicate CanLock(s: State, c: CpuId) {
    c < |s.cpus| && (s.cpus[c].handler.Entered? || s.cpus[c].handler.Relock?) &&
    (s.cpus[c].queue != [] ==> s.cpus[c].queue[0] < |s.calls|)
  }

  function LockQueue(s: State, c: CpuId): State
    requires CanLock(s, c)
  {
    var u := s.cpus[c];
    if u.handler.Entered? && !u.ipiSent then s.WithHandler(c, NoHandler)
    else if u.queue == [] then s.WithCpu(c, u.(ipiSent := false, handler := NoHandler))
    else
      var x := u.queue[0];
      s.WithCall(x, s.calls[x].(place := Handling(c))).WithCpu(c, u.(queue := u.queue[1..], handler := Running(x)))
  }

  /** c is handling a structure that exists. */
  predicate HandlesCall(s: State, c: CpuId, x: CallId) {
    c < |s.cpus| && x < |s.calls| && s.cpus[c].handler.Handles(x)
  }

  // smp_call_acknowledge

  predicate CanAcknowledge(s: State, c: CpuId, x: CallId) {
    HandlesCall(s, c, x) && s.cpus[c].handler.Running? && s.calls[x].result.Some?
  }

  function Acknowledge(s: State, c: CpuId, x: CallId, status: int): State
    requires CanAcknowledge(s, c, x)
  {
    s.WithCall(x, s.calls[x].(status := status)).WithHandler(c, AckDec(x))
  }

  /** atomic_dec through the result pointer of x. */
  function Decrement(s: State, x: CallId): State
    requires x < |s.calls| && s.calls[x].result.Some?
  {
    var k := s.calls[x];
    var f := k.result.value;
    var s1 := s.WithCall(x, k.(acks := k.acks + 1, delivered := Some(k.status)));
    if f.cpu < |s.cpus| && s.cpus[f.cpu].send.Sending? && s.cpus[f.cpu].sends == f.sendNo then
      var u := s.cpus[f.cpu];
      s1.WithCpu(f.cpu, u.(send := u.send.(acked := u.send.acked - 1)))
    else
      s1.(dangling := true)
  }

  predicate CanDecrement(s: State, c: CpuId, x: CallId) {
    HandlesCall(s, c, x) && (s.cpus[c].handler.AckDec? || s.cpus[c].handler.FinDec?) && s.calls[x].result.Some?
  }

  function DecrementCount(s: State, c: CpuId, x: CallId): State
    requires CanDecrement(s, c, x)
  {
    Decrement(s.WithHandler(c, if s.cpus[c].handler.AckDec? then AckClear(x) else Releasing(x)), x)
  }

  predicate CanClear(s: State, c: CpuId, x: CallId) {
    HandlesCall(s, c, x) && s.cpus[c].handler.AckClear?
  }

  function ClearResult(s: State, c: CpuId, x: CallId): State
    requires CanClear(s, c, x)
  {
    s.WithCall(x, s.calls[x].(result := None)).WithHandler(c, Running(x))
  }

  // The called function returns, and smp_ipi_handler acknowledges if that is still to do

  predicate CanReturn(s: State, c: CpuId, x: CallId) {
    HandlesCall(s, c, x) && s.cpus[c].handler.Running?
  }

  function ReturnFrom(s: State, c: CpuId, x: CallId, ret: int): State
    requires CanReturn(s, c, x)
  {
    s.WithHandler(c, Returned(x, ret))
  }

  predicate CanFinish(s: State, c: CpuId, x: CallId) {
    HandlesCall(s, c, x) && s.cpus[c].handler.Returned?
  }

  function Finish(s: State, c: CpuId, x: CallId): State
    requires CanFinish(s, c, x)
  {
    if s.calls[x].result.Some? then
      s.WithCall(x, s.calls[x].(status := s.cpus[c].handler.ret)).WithHandler(c, FinDec(x))
    else
      s.WithHandler(c, Releasing(x))
  }

  // smp_call_release by the handler

  predicate CanRelease(s: State, c: CpuId, x: CallId) {
    HandlesCall(s, c, x) && s.cpus[c].handler.Releasing? && s.calls[x].count > 0
  }

  function Release(s: State, c: CpuId, x: CallId): State
    requires CanRelease(s, c, x)
  {
    var k := s.calls[x];
    if k.count == 1 then
      s.WithCall(x, k.(count := 0, place := HandlerFrees(c))).WithHandler(c, Freeing(x))
    else
      s.WithCall(x, k.(count := k.count - 1, place := Finished)).WithHandler(c, Relock)
  }

  predicate CanHandlerRecycle(s: State, c: CpuId, x: CallId) {
    c < |s.cpus| && x < |s.calls| && s.cpus[c].handler == Freeing(x)
  }

  function HandlerRecycle(s: State, c: CpuId, x: CallId): State
    requires CanHandlerRecycle(s, c, x)
  {
    s.(pool := [x] + s.pool).WithCall(x, s.calls[x].(place := Pooled)).WithHandler(c, Relock)
  }

  // ---------------------------------------------------------------------
  // Runs

  predicate Enabled(s: State, t: Step) {
    match t
    case StartStep(c, single, _, todo) => CanStart(s, c, single, todo)
    case TakeStep(c) => CanTake(s, c)
    case SpinStep(c) => CanSpin(s, c)
    case SetUpStep(c) => CanSetUp(s, c)
    case PostStep(c) => CanPost(s, c)
    case LeaveStep(c) => CanLeave(s, c)
    case DropStep(c) => CanDrop(s, c)
    case RecycleStep(c) => CanRecycle(s, c)
    case InterruptStep(c) => CanInterrupt(s, c)
    case LockStep(c) => CanLock(s, c)
    case AcknowledgeStep(c, x, _) => CanAcknowledge(s, c, x)
    case DecrementStep(c, x) => CanDecrement(s, c, x)
    case ClearStep(c, x) => CanClear(s, c, x)
    case ReturnStep(c, x, _) => CanReturn(s, c, x)
    case FinishStep(c, x) => CanFinish(s, c, x)
    case ReleaseStep(c, x) => CanRelease(s, c, x)
    case HandlerRecycleStep(c, x) => CanHandlerRecycle(s, c, x)
  }

  function Apply(s: State, t: Step): State
    requires Enabled(s, t)
  {
    match t
    case StartStep(c, single, sync, todo) => Start(s, c, single, sync, todo)
    case TakeStep(c) => TakeFirst(s, c)
    case SpinStep(c) => Spin(s, c)
    case SetUpStep(c) => SetUp(s, c)
    case PostStep(c) => Post(s, c)
    case LeaveStep(c) => Leave(s, c)
    case DropStep(c) => DropRef(s, c)
    case RecycleStep(c) => Recycle(s, c)
    case InterruptStep(c) => Interrupt(s, c)
    case LockStep(c) => LockQueue(s, c)
    case AcknowledgeStep(c, x, status) => Acknowledge(s, c, x, status)
    case DecrementStep(c, x) => DecrementCount(s, c, x)
    case ClearStep(c, x) => ClearResult(s, c, x)
    case ReturnStep(c, x, ret) => ReturnFrom(s, c, x, ret)
    case FinishStep(c, x) => Finish(s, c, x)
    case ReleaseStep(c, x) => Release(s, c, x)
    case HandlerRecycleStep(c, x) => HandlerRecycle(s, c, x)
  }
}
