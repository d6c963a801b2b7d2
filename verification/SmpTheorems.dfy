/**
  What the cross-CPU call protocol guarantees in every run: places and reference
  counts, acknowledgements, no lost call, no deadlock, and completion.
 */
module SmpTheorems {
  import opened Options
  import opened SmpCall
  import opened SmpInvariant

  ghost predicate Reachable(s: State) {
    exists s0: State, t: seq<Step> :: Init(s0) && IsRun(s0, t) && Run(s0, t) == s
  }

  lemma ReachableInv(s: State)
    requires Reachable(s)
    ensures Inv(s)
  {
    var s0: State, t: seq<Step> :| Init(s0) && IsRun(s0, t) && Run(s0, t) == s;
    InvInit(s0);
    InvRun(s0, t);
  }

  // ---------------------------------------------------------------------
  // Places and reference counts, read off the structures themselves

  /** Call x is found at place p of the data structures. */
  predicate FoundAt(s: State, x: CallId, p: Place) {
    match p
    case Pooled => x in s.pool
    case Filling(c) => c < |s.cpus| && s.cpus[c].send.Sending? && s.cpus[c].send.phase == Fill(x)
    case Ready(c) => c < |s.cpus| && s.cpus[c].send.Sending? && s.cpus[c].send.phase == Enqueue(x)
    case Queued(c) => c < |s.cpus| && x in s.cpus[c].queue
    case Handling(c) => c < |s.cpus| && s.cpus[c].handler.Handles(x)
    case Finished => false
    case SenderFrees(c) => c < |s.cpus| && s.cpus[c].send.Sending? && s.cpus[c].send.phase == Free(x)
    case HandlerFrees(c) => c < |s.cpus| && s.cpus[c].handler == Freeing(x)
  }

  lemma FoundWhereRecorded(s: State, x: CallId, p: Place)
    requires Inv(s) && x < |s.calls| && FoundAt(s, x, p)
    ensures s.calls[x].place == p
  {
    if p.Pooled? {
      var i :| 0 <= i < |s.pool| && s.pool[i] == x;
    } else if !p.Finished? {
      assert CpuOk(s, p.cpu);
    }
  }

  /** Every structure is in exactly one place, or its destination is done and only its sender holds it. */
  lemma ExactlyOnePlace(s: State, x: CallId)
    requires Reachable(s) && x < |s.calls|
    ensures forall p: Place, q: Place :: FoundAt(s, x, p) && FoundAt(s, x, q) ==> p == q
    ensures (exists p: Place :: FoundAt(s, x, p)) || (exists c :: SenderKeeps(s, c, x))
    ensures forall c, d :: SenderKeeps(s, c, x) && SenderKeeps(s, d, x) ==> c == d
  {
    ReachableInv(s);
    forall p: Place, q: Place | FoundAt(s, x, p) && FoundAt(s, x, q) ensures p == q {
      FoundWhereRecorded(s, x, p);
      FoundWhereRecorded(s, x, q);
    }
    assert PlaceOk(s, x);
    if s.calls[x].place.Finished? {
      assert SenderKeeps(s, s.calls[x].held.value, x);
    } else {
      assert FoundAt(s, x, s.calls[x].place);
    }
    forall c, d | SenderKeeps(s, c, x) && SenderKeeps(s, d, x) ensures c == d {
      HolderIsRecorded(s, c, x);
      HolderIsRecorded(s, d, x);
    }
  }

  lemma HolderIsRecorded(s: State, c: CpuId, x: CallId)
    requires Inv(s) && x < |s.calls| && SenderKeeps(s, c, x)
    ensures s.calls[x].held == Some(c)
  {
    assert CpuOk(s, c);
    assert PlaceOk(s, x);
  }

  /** No queue and no pool holds a structure twice. */
  lemma NoDuplicates(s: State)
    requires Reachable(s)
    ensures Distinct(s.pool) && forall c :: 0 <= c < |s.cpus| ==> Distinct(s.cpus[c].queue)
  {
    ReachableInv(s);
    forall c | 0 <= c < |s.cpus| ensures Distinct(s.cpus[c].queue) {
      assert CpuOk(s, c);
    }
  }

  /** The destination's reference: taken when the structure is set up, dropped when the handler releases it. */
  ghost predicate DestinationHolds(s: State, x: CallId) {
    exists c :: FoundAt(s, x, Ready(c)) || FoundAt(s, x, Queued(c)) || FoundAt(s, x, Handling(c))
  }

  /** The count is the destination's outstanding reference plus the sender's. */
  lemma CountIsHolds(s: State, x: CallId)
    requires Reachable(s) && x < |s.calls|
    ensures s.calls[x].count == Refs(DestinationHolds(s, x)) + Refs(exists c :: SenderKeeps(s, c, x))
  {
    ReachableInv(s);
    assert PlaceOk(s, x);
    var k := s.calls[x];
    assert (exists c :: SenderKeeps(s, c, x)) <==> k.held.Some? by {
      if c :| SenderKeeps(s, c, x) {
        HolderIsRecorded(s, c, x);
      }
      if k.held.Some? {
        assert SenderKeeps(s, k.held.value, x);
      }
    }
    assert DestinationHolds(s, x) <==> k.place.Ready? || k.place.Queued? || k.place.Handling? by {
      if c :| FoundAt(s, x, Ready(c)) || FoundAt(s, x, Queued(c)) || FoundAt(s, x, Handling(c)) {
        forall p: Place | FoundAt(s, x, p) ensures k.place == p { FoundWhereRecorded(s, x, p); }
      }
      if k.place.Ready? || k.place.Queued? || k.place.Handling? {
        assert FoundAt(s, x, k.place);
      }
    }
  }

  // ---------------------------------------------------------------------
  // Acknowledgements

  /** The sender with this frame has not left its wait loop, and cannot leave it now: its counter is still to become
      zero. */
  predicate StillWaiting(s: State, f: Frame) {
    FrameLive(s, f) &&
    var u := s.cpus[f.cpu].send;
    u.acked > 0 && !CanLeave(s, f.cpu) && !(u.single && (u.phase.Drop? || u.phase.Free?))
  }

  /** No counter is ever decremented after its sender has left its wait loop, and none twice for one call. */
  lemma CountersStayLive(s: State)
    requires Reachable(s)
    ensures !s.dangling
    ensures forall c: CpuId, x: CallId :: CanDecrement(s, c, x) ==>
      StillWaiting(s, s.calls[x].result.value) && s.calls[x].acks == 0
  {
    ReachableInv(s);
    forall c: CpuId, x: CallId | CanDecrement(s, c, x)
      ensures StillWaiting(s, s.calls[x].result.value) && s.calls[x].acks == 0
    {
      AcknowledgedIsOwed(s, c, x);
      assert CpuOk(s, s.calls[x].result.value.cpu);
    }
  }

  /** When a handler gives up a synchronous call, the call has been acknowledged exactly once; an asynchronous one
      never. */
  lemma AcknowledgedExactlyOnce(s: State, c: CpuId, x: CallId)
    requires Reachable(s) && CanRelease(s, c, x)
    ensures s.calls[x].acks == if s.calls[x].origin.Some? then 1 else 0
  {
    ReachableInv(s);
    assert CpuOk(s, c);
    assert PlaceOk(s, x) && AckOk(s, x);
  }

  /** A sender leaves its wait only when nobody owes it an acknowledgement, and reads the status it was acknowledged
      with. */
  lemma LeavesAfterAllAcks(s: State, c: CpuId)
    requires Reachable(s) && CanLeave(s, c)
    ensures forall x :: 0 <= x < |s.calls| && Owes(s.calls[x]) ==> s.calls[x].origin != Some(Frame(c, s.cpus[c].sends))
    ensures s.cpus[c].send.phase.kept.Some? ==> s.cpus[c].send.phase.kept.value < |s.calls|
    ensures s.cpus[c].send.phase.kept.Some? ==>
      var k := s.calls[s.cpus[c].send.phase.kept.value];
      k.acks == 1 && k.origin == Some(Frame(c, s.cpus[c].sends)) && k.delivered == Some(k.status)
  {
    ReachableInv(s);
    NothingOwed(s, c);
    assert CpuOk(s, c);
    if s.cpus[c].send.phase.kept.Some? {
      var x := s.cpus[c].send.phase.kept.value;
      assert PlaceOk(s, x) && AckOk(s, x);
    }
  }

  // ---------------------------------------------------------------------
  // No lost call

  lemma NoLostCall(s: State, c: CpuId)
    requires Reachable(s) && c < |s.cpus|
    ensures s.cpus[c].queue != [] ==> s.cpus[c].ipiSent
    ensures s.cpus[c].ipiSent ==> s.cpus[c].pending || !s.cpus[c].handler.NoHandler?
  {
    ReachableInv(s);
    assert CpuOk(s, c);
  }

  // ---------------------------------------------------------------------
  // No deadlock

  /** Nothing is going on: no send, no handler, no call waiting, no interrupt on its way. */
  predicate Quiet(u: Cpu) {
    u.send.NotSending? && u.handler.NoHandler? && u.queue == [] && !u.pending
  }

  /** A spin round that finds nothing to do, or the start of a new send. */
  predicate Idle(s: State, t: Step) {
    t.StartStep? || (t.SpinStep? && t.c < |s.cpus| && !s.cpus[t.c].ipiSent)
  }

  /** The next step of a CPU that is not waiting for others. */
  function NextStep(s: State, c: CpuId): Step
    requires c < |s.cpus|
  {
    var u := s.cpus[c];
    match u.handler
    case Entered => LockStep(c)
    case Relock => LockStep(c)
    case Running(x) => ReturnStep(c, x, 0)
    case AckDec(x) => DecrementStep(c, x)
    case AckClear(x) => ClearStep(c, x)
    case Returned(x, _) => FinishStep(c, x)
    case FinDec(x) => DecrementStep(c, x)
    case Releasing(x) => ReleaseStep(c, x)
    case Freeing(x) => HandlerRecycleStep(c, x)
    case NoHandler =>
      match u.send
      case NotSending => InterruptStep(c)
      case Sending(_, _, _, acked, phase) =>
        match phase
        case Get => if s.pool != [] then TakeStep(c) else SpinStep(c)
        case Fill(_) => SetUpStep(c)
        case Enqueue(_) => PostStep(c)
        case Await(_) => if acked == 0 then LeaveStep(c) else SpinStep(c)
        case Drop(_) => DropStep(c)
        case Free(_) => RecycleStep(c)
  }

  /** c can only wait: it is quiet, or it spins and no call has been announced to it. */
  predicate Stuck(s: State, c: CpuId)
    requires c < |s.cpus|
  {
    var u := s.cpus[c];
    && u.handler.NoHandler?
    && (u.send.NotSending? ==> !u.pending)
    && (u.send.Sending? ==>
          && !u.ipiSent
          && ((u.send.phase.Get? && s.pool == []) || (u.send.phase.Await? && u.send.acked != 0)))
  }

  lemma NotStuckMoves(s: State, c: CpuId)
    requires Inv(s) && c < |s.cpus| && !Stuck(s, c)
    ensures Enabled(s, NextStep(s, c)) && !Idle(s, NextStep(s, c))
  {
    var u := s.cpus[c];
    assert CpuOk(s, c);
    if u.handler.NoHandler? {
      if u.send.Sending? && u.send.phase.Drop? {
        assert PlaceOk(s, u.send.phase.call);
      }
    } else if u.handler.Entered? || u.handler.Relock? {
    } else {
      assert PlaceOk(s, u.handler.call) && AckOk(s, u.handler.call);
    }
  }

  /** If all CPUs can only wait, they are all quiet. */
  lemma AllStuckIsQuiet(s: State)
    requires Inv(s) && forall c :: 0 <= c < |s.cpus| ==> Stuck(s, c)
    ensures forall c :: 0 <= c < |s.cpus| ==> Quiet(s.cpus[c])
  {
    forall c | 0 <= c < |s.cpus|
      ensures s.cpus[c].handler.NoHandler? && s.cpus[c].queue == []
      ensures s.cpus[c].send.Sending? ==> s.cpus[c].send.phase.Get? || s.cpus[c].send.phase.Await?
    {
      assert CpuOk(s, c) && Stuck(s, c);
    }
    forall x | 0 <= x < |s.calls| ensures s.calls[x].place.Pooled? || s.calls[x].place.Finished? {
      assert PlaceOk(s, x);
    }
    forall c | 0 <= c < |s.cpus| && s.cpus[c].send.Sending? ensures s.cpus[c].send.phase.Get? {
      assert Stuck(s, c) && CounterOk(s, c);
      assert Owed(s, c) == {};
    }
    forall c | 0 <= c < |s.cpus| ensures Quiet(s.cpus[c]) {
      assert Stuck(s, c);
      assert PlaceOk(s, 0);
    }
  }

  /** In every state that is not quiet, in particular with an empty pool, some step other than idle spinning is
      possible. */
  lemma NoDeadlock(s: State)
    requires Inv(s)
    requires exists c :: 0 <= c < |s.cpus| && !Quiet(s.cpus[c])
    ensures exists t: Step :: Enabled(s, t) && !Idle(s, t)
  {
    if c :| 0 <= c < |s.cpus| && !Stuck(s, c) {
      NotStuckMoves(s, c);
    } else {
      AllStuckIsQuiet(s);
    }
  }

  // ---------------------------------------------------------------------
  // Completion: every step but idle spinning and new sends uses up work

  function HandlerWork(s: State, h: Handler): nat {
    match h
    case NoHandler => 0
    case Entered => 1
    case Relock => 1
    case Freeing(_) => 2
    case Releasing(_) => 3
    case FinDec(_) => 4
    case Returned(_, _) => 5
    case Running(x) => if x < |s.calls| && s.calls[x].result.Some? then 9 else 6
    case AckClear(_) => 7
    case AckDec(_) => 8
  }

  function SendWork(u: Send): nat {
    match u
    case NotSending => 0
    case Sending(_, _, todo, _, phase) =>
      30 * |todo| +
      match phase
      case Get => 10
      case Fill(_) => 9
      case Enqueue(_) => 8
      case Await(kept) => if kept.Some? then 14 else 2
      case Drop(_) => 13
      case Free(_) => 12
  }

  /** Work left on one CPU, including the calls waiting for it. */
  function CpuWork(s: State, c: CpuId): nat
    requires c < |s.cpus|
  {
    var u := s.cpus[c];
    HandlerWork(s, u.handler) + 10 * |u.queue| + SendWork(u.send) +
    (if u.pending then 2 else 0) + (if u.ipiSent && u.handler.NoHandler? then 2 else 0)
  }

  function Work(s: State, n: nat): nat
    requires n <= |s.cpus|
  {
    if n == 0 then 0 else Work(s, n - 1) + CpuWork(s, n - 1)
  }

  /** If only CPUs c and e change, the total changes by what they change. */
  lemma {:induction false} WorkChange(s: State, s': State, c: CpuId, e: CpuId, n: nat)
    requires n <= |s.cpus| == |s'.cpus| && c < |s.cpus| && e < |s.cpus| && c != e
    requires forall d :: 0 <= d < |s.cpus| && d != c && d != e ==> CpuWork(s', d) == CpuWork(s, d)
    ensures Work(s', n) + (if c < n then CpuWork(s, c) else 0) + (if e < n then CpuWork(s, e) else 0)
         == Work(s, n) + (if c < n then CpuWork(s', c) else 0) + (if e < n then CpuWork(s', e) else 0)
  {
    if n > 0 {
      WorkChange(s, s', c, e, n - 1);
    }
  }

  lemma {:induction false} WorkChangeOne(s: State, s': State, c: CpuId, n: nat)
    requires n <= |s.cpus| == |s'.cpus| && c < |s.cpus|
    requires forall d :: 0 <= d < |s.cpus| && d != c ==> CpuWork(s', d) == CpuWork(s, d)
    ensures Work(s', n) + (if c < n then CpuWork(s, c) else 0) == Work(s, n) + (if c < n then CpuWork(s', c) else 0)
  {
    if n > 0 {
      WorkChangeOne(s, s', c, n - 1);
    }
  }

  /** d is not touched by a change of call x, which CPU d does not handle. */
  lemma OtherWork(s: State, s': State, d: CpuId, x: CallId)
    requires Inv(s) && d < |s.cpus| == |s'.cpus| && x < |s.calls| == |s'.calls|
    requires s'.cpus[d] == s.cpus[d] || s'.cpus[d].(send := NotSending) == s.cpus[d].(send := NotSending)
    requires SendWork(s'.cpus[d].send) == SendWork(s.cpus[d].send)
    requires forall y :: 0 <= y < |s.calls| && y != x ==> s'.calls[y] == s.calls[y]
    requires s.calls[x].place != Handling(d)
    ensures CpuWork(s', d) == CpuWork(s, d)
  {
    assert CpuOk(s, d);
  }

  lemma ContinueWork(u: Send)
    requires u.Sending? && (u.phase.Drop? || u.phase.Free?)
    ensures SendWork(Continue(u)) < SendWork(u)
  {
  }

  /** Queueing a call costs the sender more than it gives the destination. */
  lemma PostWork(s: State, c: CpuId)
    requires Inv(s) && CanPost(s, c)
    ensures Work(Post(s, c), |s.cpus|) < Work(s, |s.cpus|)
  {
    var s', d, x := Post(s, c), s.cpus[c].send.todo[0], s.cpus[c].send.phase.call;
    assert CpuOk(s, c) && CpuOk(s, d);
    forall e | 0 <= e < |s.cpus| && e != c && e != d ensures CpuWork(s', e) == CpuWork(s, e) {
      OtherWork(s, s', e, x);
    }
    WorkChange(s, s', c, d, |s.cpus|);
  }

  /** A step of c that touches only c and the call x. */
  lemma LocalWork(s: State, s': State, c: CpuId, x: CallId)
    requires Inv(s) && c < |s.cpus| && x < |s.calls| == |s'.calls|
    requires |s'.cpus| == |s.cpus| && forall d :: 0 <= d < |s.cpus| && d != c ==>
      s'.cpus[d].(send := NotSending) == s.cpus[d].(send := NotSending) &&
        SendWork(s'.cpus[d].send) == SendWork(s.cpus[d].send)
    requires forall y :: 0 <= y < |s.calls| && y != x ==> s'.calls[y] == s.calls[y]
    requires s'.calls[x].result == s.calls[x].result || s.calls[x].place == Handling(c) || !s.calls[x].place.Handling?
    requires CpuWork(s', c) < CpuWork(s, c)
    ensures Work(s', |s.cpus|) < Work(s, |s.cpus|)
  {
    forall e | 0 <= e < |s.cpus| && e != c ensures CpuWork(s', e) == CpuWork(s, e) {
      assert CpuOk(s, e);
    }
    WorkChangeOne(s, s', c, |s.cpus|);
  }

  lemma DecrementChanges(s: State, c: CpuId, x: CallId)
    requires CanDecrement(s, c, x) && FrameLive(s, s.calls[x].result.value)
    ensures var s' := DecrementCount(s, c, x);
      && |s'.cpus| == |s.cpus| && |s'.calls| == |s.calls| && CpuWork(s', c) < CpuWork(s, c)
      && (forall d :: 0 <= d < |s.cpus| && d != c ==>
            s'.cpus[d].(send := NotSending) == s.cpus[d].(send := NotSending) &&
              SendWork(s'.cpus[d].send) == SendWork(s.cpus[d].send))
      && (forall y :: 0 <= y < |s.calls| && y != x ==> s'.calls[y] == s.calls[y])
  {
  }

  lemma DecrementWork(s: State, c: CpuId, x: CallId)
    requires Inv(s) && CanDecrement(s, c, x)
    ensures Work(DecrementCount(s, c, x), |s.cpus|) < Work(s, |s.cpus|)
  {
    AcknowledgedIsOwed(s, c, x);
    DecrementChanges(s, c, x);
    LocalWork(s, DecrementCount(s, c, x), c, x);
  }

  lemma SenderWork(s: State, t: Step)
    requires Inv(s) && Enabled(s, t) && !Idle(s, t)
    requires t.TakeStep? || t.SpinStep? || t.SetUpStep? || t.LeaveStep? || t.InterruptStep?
    ensures Work(Apply(s, t), |s.cpus|) < Work(s, |s.cpus|)
  {
    assert CpuOk(s, t.c);
    var x := if t.TakeStep? then s.pool[0] else if t.SetUpStep? then s.cpus[t.c].send.phase.call else 0;
    LocalWork(s, Apply(s, t), t.c, x);
  }

  lemma DropCpuWork(s: State, c: CpuId)
    requires CanDrop(s, c)
    ensures CpuWork(DropRef(s, c), c) < CpuWork(s, c)
  {
    ContinueWork(s.cpus[c].send);
  }

  lemma DropWork(s: State, c: CpuId)
    requires Inv(s) && CanDrop(s, c)
    ensures Work(DropRef(s, c), |s.cpus|) < Work(s, |s.cpus|)
  {
    DropCpuWork(s, c);
    LocalWork(s, DropRef(s, c), c, s.cpus[c].send.phase.call);
  }

  lemma RecycleWork(s: State, c: CpuId)
    requires Inv(s) && CanRecycle(s, c)
    ensures Work(Recycle(s, c), |s.cpus|) < Work(s, |s.cpus|)
  {
    ContinueWork(s.cpus[c].send);
    LocalWork(s, Recycle(s, c), c, s.cpus[c].send.phase.call);
  }

  lemma LockWork(s: State, c: CpuId)
    requires Inv(s) && CanLock(s, c)
    ensures Work(LockQueue(s, c), |s.cpus|) < Work(s, |s.cpus|)
  {
    assert CpuOk(s, c);
    LocalWork(s, LockQueue(s, c), c, if s.cpus[c].queue != [] then s.cpus[c].queue[0] else 0);
  }

  lemma RunningWork(s: State, t: Step)
    requires Inv(s) && Enabled(s, t) && (t.AcknowledgeStep? || t.ClearStep? || t.ReturnStep?)
    ensures Work(Apply(s, t), |s.cpus|) < Work(s, |s.cpus|)
  {
    assert CpuOk(s, t.c) && AckOk(s, t.x);
    LocalWork(s, Apply(s, t), t.c, t.x);
  }

  lemma FinishWork(s: State, c: CpuId, x: CallId)
    requires Inv(s) && CanFinish(s, c, x)
    ensures Work(Finish(s, c, x), |s.cpus|) < Work(s, |s.cpus|)
  {
    assert CpuOk(s, c);
    LocalWork(s, Finish(s, c, x), c, x);
  }

  lemma HandlerReleaseWork(s: State, c: CpuId, x: CallId)
    requires Inv(s) && CanRelease(s, c, x)
    ensures Work(Release(s, c, x), |s.cpus|) < Work(s, |s.cpus|)
  {
    assert CpuOk(s, c);
    LocalWork(s, Release(s, c, x), c, x);
  }

  lemma HandlerRecycleWork(s: State, c: CpuId, x: CallId)
    requires Inv(s) && CanHandlerRecycle(s, c, x)
    ensures Work(HandlerRecycle(s, c, x), |s.cpus|) < Work(s, |s.cpus|)
  {
    assert CpuOk(s, c);
    LocalWork(s, HandlerRecycle(s, c, x), c, x);
  }

  /** A step of a handler. */
  predicate HandlerStep(t: Step) {
    || t.LockStep? || t.AcknowledgeStep? || t.DecrementStep? || t.ClearStep? || t.ReturnStep?
    || t.FinishStep? || t.ReleaseStep? || t.HandlerRecycleStep?
  }

  lemma HandlerStepWork(s: State, t: Step)
    requires Inv(s) && Enabled(s, t) && !Idle(s, t) && HandlerStep(t)
    ensures |Apply(s, t).cpus| == |s.cpus| && Work(Apply(s, t), |s.cpus|) < Work(s, |s.cpus|)
  {
    match t
    case LockStep(c) => LockWork(s, c);
    case DecrementStep(c, x) => DecrementWork(s, c, x);
    case FinishStep(c, x) => FinishWork(s, c, x);
    case ReleaseStep(c, x) => HandlerReleaseWork(s, c, x);
    case HandlerRecycleStep(c, x) => HandlerRecycleWork(s, c, x);
    case _ => RunningWork(s, t);
  }

  /** Every step but idle spinning and new sends strictly reduces the work left. */
  lemma WorkDecreases(s: State, t: Step)
    requires Inv(s) && Enabled(s, t) && !Idle(s, t)
    ensures |Apply(s, t).cpus| == |s.cpus| && Work(Apply(s, t), |s.cpus|) < Work(s, |s.cpus|)
  {
    if HandlerStep(t) {
      HandlerStepWork(s, t);
    } else if t.PostStep? {
      PostWork(s, t.c);
    } else if t.DropStep? {
      DropWork(s, t.c);
    } else if t.RecycleStep? {
      RecycleWork(s, t.c);
    } else {
      SenderWork(s, t);
    }
  }

  /** An idle spin round does nothing: the handler looks, finds no call announced, and returns. */
  lemma IdleSpinReturns(s: State, c: CpuId)
    requires Inv(s) && CanSpin(s, c) && !s.cpus[c].ipiSent
    ensures CanLock(Spin(s, c), c) && LockQueue(Spin(s, c), c) == s
  {
    assert CpuOk(s, c);
    assert s.cpus[c := s.cpus[c].(handler := Entered)][c := s.cpus[c]] == s.cpus;
  }

  /** A run without new sends. */
  predicate NoStarts(t: seq<Step>) {
    forall i :: 0 <= i < |t| ==> !t[i].StartStep?
  }

  /** How many steps of a run are spin rounds that find nothing to do. */
  function IdleSpins(s: State, t: seq<Step>): nat
    requires IsRun(s, t)
    decreases |t|
  {
    if t == [] then 0 else (if Idle(s, t[0]) then 1 else 0) + IdleSpins(Apply(s, t[0]), t[1..])
  }

  predicate AllQuiet(s: State) {
    forall c :: 0 <= c < |s.cpus| ==> Quiet(s.cpus[c])
  }

  /** An idle spin adds the one step of returning from the handler. */
  lemma IdleSpinWork(s: State, c: CpuId)
    requires CanSpin(s, c) && !s.cpus[c].ipiSent
    ensures Work(Spin(s, c), |s.cpus|) == Work(s, |s.cpus|) + 1
  {
    WorkChangeOne(s, Spin(s, c), c, |s.cpus|);
  }

  /** A run without new sends has at most as many steps as there was work to do, and two for each idle spin. */
  lemma {:induction false} RunBound(s: State, t: seq<Step>)
    requires Inv(s) && IsRun(s, t) && NoStarts(t)
    ensures |Run(s, t).cpus| == |s.cpus| && |t| + Work(Run(s, t), |s.cpus|) <= Work(s, |s.cpus|) + 2 * IdleSpins(s, t)
    decreases |t|
  {
    if t != [] {
      InvStep(s, t[0]);
      if Idle(s, t[0]) {
        IdleSpinWork(s, t[0].c);
      } else {
        WorkDecreases(s, t[0]);
      }
      RunBound(Apply(s, t[0]), t[1..]);
    }
  }

  /** No structure is lost: once all is quiet every one of them is back in the pool. */
  lemma QuietMeansPooled(s: State, x: CallId)
    requires Reachable(s) && AllQuiet(s) && x < |s.calls|
    ensures x in s.pool && s.calls[x].count == 0
  {
    ReachableInv(s);
    assert PlaceOk(s, x);
  }

  /** A run without new sends that can only go on by idle spinning has completed every send and handled every call. */
  lemma RunsComplete(s: State, t: seq<Step>)
    requires Reachable(s) && IsRun(s, t) && NoStarts(t)
    ensures |t| <= Work(s, |s.cpus|) + 2 * IdleSpins(s, t)
    ensures (forall u: Step :: Enabled(Run(s, t), u) ==> Idle(Run(s, t), u)) <==> AllQuiet(Run(s, t))
  {
    ReachableInv(s);
    InvRun(s, t);
    RunBound(s, t);
    if AllQuiet(Run(s, t)) {
      QuietIsIdle(Run(s, t));
    } else {
      NoDeadlock(Run(s, t));
    }
  }

  lemma QuietIsIdle(s: State)
    requires Inv(s) && AllQuiet(s)
    ensures forall u: Step :: Enabled(s, u) ==> Idle(s, u)
  {
  }
}
