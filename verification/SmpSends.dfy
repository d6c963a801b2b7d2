/**
  What a send achieves over a whole run: which CPUs get a call, which of them
  acknowledge it, and what status the sender reads.
 */
module SmpSends {
  import opened Options
  import opened SmpCall
  import opened SmpInvariant
  import opened SmpTheorems

  // ---------------------------------------------------------------------
  // What can be seen of a send in a run

  lemma SameNumberSender(s: State, u: Step)
    requires Enabled(s, u) && !HandlerStep(u)
    ensures |Apply(s, u).cpus| == |s.cpus| && |Apply(s, u).calls| == |s.calls|
  {
  }

  lemma SameNumberHandler(s: State, u: Step)
    requires Enabled(s, u) && HandlerStep(u)
    ensures |Apply(s, u).cpus| == |s.cpus| && |Apply(s, u).calls| == |s.calls|
  {
  }

  lemma SameNumber(s: State, u: Step)
    requires Enabled(s, u)
    ensures |Apply(s, u).cpus| == |s.cpus| && |Apply(s, u).calls| == |s.calls|
  {
    if HandlerStep(u) {
      SameNumberHandler(s, u);
    } else {
      SameNumberSender(s, u);
    }
  }

  /** The CPUs among the first n whose call queue is longer in s'. */
  function Grew(s: State, s': State, n: nat): seq<CpuId>
    requires n <= |s.cpus| == |s'.cpus|
  {
    if n == 0 then [] else
    Grew(s, s', n - 1) + if |s'.cpus[n - 1].queue| > |s.cpus[n - 1].queue| then [n - 1] else []
  }

  /** CPU f.cpu has made f.sendNo sends. */
  predicate IsCurrent(s: State, f: Frame) {
    f.cpu < |s.cpus| && s.cpus[f.cpu].sends == f.sendNo
  }

  /** The counter in the frame, while the frame exists. */
  function Counter(s: State, f: Frame): Option<int> {
    if IsCurrent(s, f) && s.cpus[f.cpu].send.Sending? then Some(s.cpus[f.cpu].send.acked) else None
  }

  /** The CPUs whose queues have grown by steps of this send. */
  function QueuedFor(s: State, t: seq<Step>, f: Frame): seq<CpuId>
    requires IsRun(s, t)
    decreases |t|
  {
    if t == [] then [] else
    var s' := Apply(s, t[0]);
    QueuedBy(s, t[0], f) + QueuedFor(s', t[1..], f)
  }

  function QueuedBy(s: State, u: Step, f: Frame): seq<CpuId>
    requires Enabled(s, u)
  {
    SameNumber(s, u);
    if u.c == f.cpu && IsCurrent(s, f) then Grew(s, Apply(s, u), |s.cpus|) else []
  }

  /** The CPUs that have decremented the counter of this send. */
  function AckedFor(s: State, t: seq<Step>, f: Frame): seq<CpuId>
    requires IsRun(s, t)
    decreases |t|
  {
    if t == [] then [] else AckedBy(s, t[0], f) + AckedFor(Apply(s, t[0]), t[1..], f)
  }

  function AckedBy(s: State, u: Step, f: Frame): seq<CpuId>
    requires Enabled(s, u)
  {
    var before, after := Counter(s, f), Counter(Apply(s, u), f);
    if before.Some? && after.Some? && after.value < before.value then [u.c] else []
  }

  // ---------------------------------------------------------------------
  // Queues

  lemma {:induction false} GrewNone(s: State, s': State, n: nat)
    requires n <= |s.cpus| == |s'.cpus| && forall d :: 0 <= d < n ==> |s'.cpus[d].queue| <= |s.cpus[d].queue|
    ensures Grew(s, s', n) == []
  {
    if n > 0 {
      GrewNone(s, s', n - 1);
    }
  }

  lemma {:induction false} GrewOne(s: State, s': State, d: CpuId, n: nat)
    requires d < n <= |s.cpus| == |s'.cpus| && |s'.cpus[d].queue| > |s.cpus[d].queue|
    requires forall e :: 0 <= e < n && e != d ==> |s'.cpus[e].queue| <= |s.cpus[e].queue|
    ensures Grew(s, s', n) == [d]
  {
    if d == n - 1 {
      GrewNone(s, s', n - 1);
    } else {
      GrewOne(s, s', d, n - 1);
    }
  }

  lemma SenderQueues(s: State, u: Step, d: CpuId)
    requires Enabled(s, u) && !u.PostStep? && !HandlerStep(u) && d < |s.cpus| == |Apply(s, u).cpus|
    ensures |Apply(s, u).cpus[d].queue| <= |s.cpus[d].queue|
  {
  }

  lemma HandlerQueues(s: State, u: Step, d: CpuId)
    requires Enabled(s, u) && HandlerStep(u) && d < |s.cpus| == |Apply(s, u).cpus|
    ensures |Apply(s, u).cpus[d].queue| <= |s.cpus[d].queue|
  {
  }

  /** Only queueing a call makes a queue longer. */
  lemma QueuedByStep(s: State, u: Step, f: Frame)
    requires Enabled(s, u)
    ensures QueuedBy(s, u, f) ==
            if u.PostStep? && u.c == f.cpu && IsCurrent(s, f) then [s.cpus[u.c].send.todo[0]] else []
  {
    SameNumber(s, u);
    if u.PostStep? {
      GrewOne(s, Apply(s, u), s.cpus[u.c].send.todo[0], |s.cpus|);
    } else {
      forall d | 0 <= d < |s.cpus| ensures |Apply(s, u).cpus[d].queue| <= |s.cpus[d].queue| {
        if HandlerStep(u) {
          HandlerQueues(s, u, d);
        } else {
          SenderQueues(s, u, d);
        }
      }
      GrewNone(s, Apply(s, u), |s.cpus|);
    }
  }

  // ---------------------------------------------------------------------
  // Acknowledgements still to come

  /** The CPU that has to acknowledge the call, if it was sent with frame f and queued. */
  function Awaited(k: Call, f: Frame): multiset<CpuId> {
    if Owes(k) && k.origin == Some(f) && (k.place.Queued? || k.place.Handling?) then multiset{k.place.cpu}
    else multiset{}
  }

  function Pending(s: State, f: Frame, n: nat): multiset<CpuId>
    requires n <= |s.calls|
  {
    if n == 0 then multiset{} else Pending(s, f, n - 1) + Awaited(s.calls[n - 1], f)
  }

  lemma {:induction false} PendingSame(s: State, s': State, f: Frame, n: nat)
    requires n <= |s.calls| == |s'.calls|
    requires forall x :: 0 <= x < n ==> Awaited(s'.calls[x], f) == Awaited(s.calls[x], f)
    ensures Pending(s', f, n) == Pending(s, f, n)
  {
    if n > 0 {
      PendingSame(s, s', f, n - 1);
    }
  }

  lemma {:induction false} PendingOne(s: State, s': State, f: Frame, x: CallId, n: nat)
    requires x < n <= |s.calls| == |s'.calls|
    requires forall y :: 0 <= y < n && y != x ==> Awaited(s'.calls[y], f) == Awaited(s.calls[y], f)
    ensures Pending(s', f, n) + Awaited(s.calls[x], f) == Pending(s, f, n) + Awaited(s'.calls[x], f)
  {
    if x == n - 1 {
      PendingSame(s, s', f, n - 1);
      Exchange(Pending(s, f, n - 1), Awaited(s.calls[x], f), Awaited(s'.calls[x], f));
    } else {
      PendingOne(s, s', f, x, n - 1);
      OneMore(Pending(s, f, n - 1), Pending(s', f, n - 1), Awaited(s.calls[x], f), Awaited(s'.calls[x], f),
              Awaited(s.calls[n - 1], f));
    }
  }

  lemma Exchange(p: multiset<CpuId>, a: multiset<CpuId>, b: multiset<CpuId>)
    ensures (p + a) + b == (p + b) + a
  {
  }

  lemma OneMore(p: multiset<CpuId>, p': multiset<CpuId>, a: multiset<CpuId>, a': multiset<CpuId>, b: multiset<CpuId>)
    requires p' + a == p + a'
    ensures (p' + b) + a == (p + b) + a'
  {
    assert (p' + b) + a == (p' + a) + b && (p + b) + a' == (p + a') + b;
  }

  lemma {:induction false} PendingNone(s: State, f: Frame, n: nat)
    requires n <= |s.calls| && forall x :: 0 <= x < n ==> !(Owes(s.calls[x]) && s.calls[x].origin == Some(f))
    ensures Pending(s, f, n) == multiset{}
  {
    if n > 0 {
      PendingNone(s, f, n - 1);
    }
  }

  function PendingFor(s: State, f: Frame): multiset<CpuId> {
    Pending(s, f, |s.calls|)
  }

  /** Only for the current synchronous send is anything still to come. */
  lemma PendingIsLive(s: State, f: Frame)
    requires Inv(s) && !FrameLive(s, f)
    ensures PendingFor(s, f) == multiset{}
  {
    forall x | 0 <= x < |s.calls| ensures !(Owes(s.calls[x]) && s.calls[x].origin == Some(f)) {
      assert AckOk(s, x);
    }
    PendingNone(s, f, |s.calls|);
  }

  /** Queueing a synchronous call makes its destination one that has to acknowledge. */
  lemma PostPending(s: State, c: CpuId, f: Frame)
    requires Inv(s) && CanPost(s, c)
    ensures PendingFor(Post(s, c), f) ==
            PendingFor(s, f) + if s.cpus[c].send.sync && f == Frame(c, s.cpus[c].sends)
                               then multiset{s.cpus[c].send.todo[0]} else multiset{}
  {
    var x := s.cpus[c].send.phase.call;
    assert CpuOk(s, c);
    assert PlaceOk(s, x) && AckOk(s, x);
    PendingOne(s, Post(s, c), f, x, |s.calls|);
  }

  /** A decrement is the acknowledgement of the CPU that makes it. */
  lemma DecrementPending(s: State, c: CpuId, x: CallId, f: Frame)
    requires Inv(s) && CanDecrement(s, c, x)
    ensures PendingFor(s, f) ==
            PendingFor(DecrementCount(s, c, x), f) + if s.calls[x].origin == Some(f) then multiset{c} else multiset{}
    ensures s.calls[x].origin == s.calls[x].result && FrameLive(s, s.calls[x].origin.value)
  {
    AcknowledgedIsOwed(s, c, x);
    PendingOne(s, DecrementCount(s, c, x), f, x, |s.calls|);
  }

  /** The sender touches only calls that are not queued yet. */
  lemma SenderAwaited(s: State, u: Step, f: Frame, x: CallId)
    requires Inv(s) && Enabled(s, u) && x < |s.calls| == |Apply(s, u).calls| && (u.TakeStep? || u.SetUpStep?)
    ensures Awaited(Apply(s, u).calls[x], f) == Awaited(s.calls[x], f)
  {
    assert CpuOk(s, u.c);
    assert PlaceOk(s, x) && AckOk(s, x);
  }

  /** When it gives up a call, nobody has to acknowledge it, or the destination still has it. */
  lemma DropAwaited(s: State, u: Step, f: Frame, x: CallId)
    requires Inv(s) && Enabled(s, u) && x < |s.calls| == |Apply(s, u).calls| && (u.DropStep? || u.RecycleStep?)
    ensures Awaited(Apply(s, u).calls[x], f) == Awaited(s.calls[x], f)
  {
    assert CpuOk(s, u.c);
    assert PlaceOk(s, x) && AckOk(s, x);
  }

  /** A call that is taken from the queue stays with its destination. */
  lemma LockAwaited(s: State, c: CpuId, f: Frame, x: CallId)
    requires Inv(s) && CanLock(s, c) && x < |s.calls|
    ensures |LockQueue(s, c).calls| == |s.calls| && Awaited(LockQueue(s, c).calls[x], f) == Awaited(s.calls[x], f)
  {
    assert CpuOk(s, c);
  }

  /** The handler gives up a call only after the decrement. */
  lemma ReleaseAwaited(s: State, c: CpuId, y: CallId, f: Frame, x: CallId)
    requires Inv(s) && CanRelease(s, c, y) && x < |s.calls|
    ensures |Release(s, c, y).calls| == |s.calls| && Awaited(Release(s, c, y).calls[x], f) == Awaited(s.calls[x], f)
  {
    assert CpuOk(s, c);
    assert PlaceOk(s, y) && AckOk(s, y);
  }

  lemma FreeAwaited(s: State, c: CpuId, y: CallId, f: Frame, x: CallId)
    requires Inv(s) && CanHandlerRecycle(s, c, y) && x < |s.calls|
    ensures |HandlerRecycle(s, c, y).calls| == |s.calls|
    ensures Awaited(HandlerRecycle(s, c, y).calls[x], f) == Awaited(s.calls[x], f)
  {
    assert CpuOk(s, c);
  }

  predicate TouchesPlaces(u: Step) {
    || u.TakeStep? || u.SetUpStep? || u.DropStep? || u.RecycleStep?
    || u.LockStep? || u.ReleaseStep? || u.HandlerRecycleStep?
  }

  lemma RestCalls(s: State, u: Step, x: CallId)
    requires Enabled(s, u) && x < |s.calls| == |Apply(s, u).calls|
    requires !u.PostStep? && !u.DecrementStep? && !TouchesPlaces(u)
    ensures var k, k' := s.calls[x], Apply(s, u).calls[x];
      k'.place == k.place && k'.origin == k.origin && k'.acks == k.acks
  {
  }

  /** No other step changes what is to come. */
  lemma OtherPending(s: State, u: Step, f: Frame)
    requires Inv(s) && Enabled(s, u) && !u.PostStep? && !u.DecrementStep?
    ensures PendingFor(Apply(s, u), f) == PendingFor(s, f)
  {
    SameNumber(s, u);
    forall x | 0 <= x < |s.calls| ensures Awaited(Apply(s, u).calls[x], f) == Awaited(s.calls[x], f) {
      if u.TakeStep? || u.SetUpStep? {
        SenderAwaited(s, u, f, x);
      } else if u.DropStep? || u.RecycleStep? {
        DropAwaited(s, u, f, x);
      } else if u.LockStep? {
        LockAwaited(s, u.c, f, x);
      } else if u.ReleaseStep? {
        ReleaseAwaited(s, u.c, u.x, f, x);
      } else if u.HandlerRecycleStep? {
        FreeAwaited(s, u.c, u.x, f, x);
      } else {
        RestCalls(s, u, x);
      }
    }
    PendingSame(s, Apply(s, u), f, |s.calls|);
  }

  // ---------------------------------------------------------------------
  // How far a send has come

  /** What StartStep was told to do. */
  datatype Job = Job(frame: Frame, single: bool, sync: bool, todo: seq<CpuId>)

  /** The send is at work. */
  predicate AtWork(s: State, f: Frame) {
    IsCurrent(s, f) && s.cpus[f.cpu].send.Sending?
  }

  /** The send has returned. */
  predicate Over(s: State, f: Frame) {
    f.cpu < |s.cpus| && s.cpus[f.cpu].sends >= f.sendNo && !AtWork(s, f)
  }

  /** The send does its job: what is queued and what is still to do make up the whole of it. */
  predicate Doing(u: Send, j: Job, queued: seq<CpuId>) {
    && u.Sending? && u.single == j.single && u.sync == j.sync && queued + u.todo == j.todo
    && (u.single && (u.phase.Await? || u.phase.Drop? || u.phase.Free?) ==> u.todo == [])
  }

  predicate QueuedSoFar(s: State, j: Job, queued: seq<CpuId>) {
    && j.frame.cpu < |s.cpus| && s.cpus[j.frame.cpu].sends >= j.frame.sendNo
    && if AtWork(s, j.frame) then Doing(s.cpus[j.frame.cpu].send, j, queued) else queued == j.todo
  }

  /** Those that have been called have acknowledged, or are still to. */
  predicate AckedSoFar(s: State, j: Job, queued: seq<CpuId>, acked: seq<CpuId>) {
    if j.sync then multiset(queued) == multiset(acked) + PendingFor(s, j.frame) else acked == []
  }

  predicate SoFar(s: State, j: Job, queued: seq<CpuId>, acked: seq<CpuId>) {
    QueuedSoFar(s, j, queued) && AckedSoFar(s, j, queued, acked)
  }

  /** A step that neither starts a send, nor queues a call, nor decrements a counter. */
  predicate Plain(u: Step) {
    !u.StartStep? && !u.PostStep? && !u.DecrementStep?
  }

  /** What such a step does to a send. */
  predicate Continues(v: Cpu, v': Cpu) {
    && v'.sends == v.sends && (v.send.NotSending? ==> v'.send.NotSending?)
    && (v.send.Sending? && v'.send.Sending? ==>
          && v'.send == v.send.(acked := v'.send.acked, phase := v'.send.phase) && v'.send.acked >= v.send.acked
          && (v'.send.phase.Await? || v'.send.phase.Drop? || v'.send.phase.Free? ==>
                v.send.phase.Await? || v.send.phase.Drop? || v.send.phase.Free?))
    && (v.send.Sending? && v'.send.NotSending? ==>
          v.send.todo == [] || (v.send.single && (v.send.phase.Drop? || v.send.phase.Free?)))
  }

  lemma SenderContinues(s: State, u: Step)
    requires Inv(s) && Enabled(s, u) && u.c < |s.cpus| == |Apply(s, u).cpus|
    requires u.TakeStep? || u.SetUpStep? || u.LeaveStep? || u.DropStep? || u.RecycleStep?
    ensures Continues(s.cpus[u.c], Apply(s, u).cpus[u.c])
  {
    assert CpuOk(s, u.c);
  }

  /** Handlers and other CPUs do not touch the send. */
  lemma OthersContinue(s: State, u: Step, c: CpuId)
    requires Enabled(s, u) && Plain(u) && c < |s.cpus| == |Apply(s, u).cpus|
    requires u.c != c || HandlerStep(u) || u.SpinStep? || u.InterruptStep?
    ensures Apply(s, u).cpus[c].send == s.cpus[c].send && Apply(s, u).cpus[c].sends == s.cpus[c].sends
  {
  }

  lemma QueuedPlain(s: State, u: Step, j: Job, queued: seq<CpuId>)
    requires Inv(s) && Enabled(s, u) && Plain(u) && QueuedSoFar(s, j, queued)
    ensures QueuedSoFar(Apply(s, u), j, queued) && AckedBy(s, u, j.frame) == []
  {
    var c := j.frame.cpu;
    SameNumber(s, u);
    if u.c != c || HandlerStep(u) || u.SpinStep? || u.InterruptStep? {
      OthersContinue(s, u, c);
    } else {
      SenderContinues(s, u);
    }
  }

  lemma SoFarPlain(s: State, u: Step, j: Job, queued: seq<CpuId>, acked: seq<CpuId>)
    requires Inv(s) && Enabled(s, u) && Plain(u) && SoFar(s, j, queued, acked)
    ensures SoFar(Apply(s, u), j, queued + QueuedBy(s, u, j.frame), acked + AckedBy(s, u, j.frame))
  {
    QueuedByStep(s, u, j.frame);
    OtherPending(s, u, j.frame);
    QueuedPlain(s, u, j, queued);
    assert queued + [] == queued && acked + [] == acked;
  }

  lemma SoFarStart(s: State, u: Step, j: Job, queued: seq<CpuId>, acked: seq<CpuId>)
    requires Inv(s) && Enabled(s, u) && u.StartStep? && SoFar(s, j, queued, acked)
    ensures SoFar(Apply(s, u), j, queued + QueuedBy(s, u, j.frame), acked + AckedBy(s, u, j.frame))
  {
    SameNumber(s, u);
    QueuedByStep(s, u, j.frame);
    OtherPending(s, u, j.frame);
    assert queued + [] == queued && acked + [] == acked;
  }

  /** The sender has one destination less to do; nobody else's send changes. */
  lemma PostSends(s: State, c: CpuId, d: CpuId)
    requires CanPost(s, c) && d < |s.cpus| == |Post(s, c).cpus|
    ensures var v, v' := s.cpus[d], Post(s, c).cpus[d];
      && v'.sends == v.sends
      && if d != c then v'.send == v.send
         else && v'.send == v.send.(todo := v.send.todo[1..], phase := v'.send.phase)
              && (v'.send.phase.Await? || v'.send.phase.Drop?)
  {
  }

  lemma QueuedPost(s: State, c: CpuId, j: Job, queued: seq<CpuId>)
    requires Inv(s) && CanPost(s, c) && QueuedSoFar(s, j, queued)
    ensures var here := c == j.frame.cpu && IsCurrent(s, j.frame);
      QueuedSoFar(Post(s, c), j, if here then queued + [s.cpus[c].send.todo[0]] else queued)
  {
    SameNumber(s, PostStep(c));
    PostSends(s, c, j.frame.cpu);
    assert CpuOk(s, c);
    QueuedOne(queued, s.cpus[c].send.todo);
  }

  lemma AckedPost(s: State, c: CpuId, j: Job, queued: seq<CpuId>, acked: seq<CpuId>)
    requires Inv(s) && CanPost(s, c) && SoFar(s, j, queued, acked)
    ensures var here := c == j.frame.cpu && IsCurrent(s, j.frame);
      AckedSoFar(Post(s, c), j, if here then queued + [s.cpus[c].send.todo[0]] else queued, acked)
  {
    PostPending(s, c, j.frame);
    QueuedOne(queued, s.cpus[c].send.todo);
  }

  lemma PostKeepsCounter(s: State, c: CpuId, f: Frame)
    requires CanPost(s, c)
    ensures AckedBy(s, PostStep(c), f) == []
  {
    SameNumber(s, PostStep(c));
    if f.cpu < |s.cpus| {
      PostSends(s, c, f.cpu);
    }
  }

  lemma SoFarPost(s: State, u: Step, j: Job, queued: seq<CpuId>, acked: seq<CpuId>)
    requires Inv(s) && Enabled(s, u) && u.PostStep? && SoFar(s, j, queued, acked)
    ensures SoFar(Apply(s, u), j, queued + QueuedBy(s, u, j.frame), acked + AckedBy(s, u, j.frame))
  {
    QueuedByStep(s, u, j.frame);
    PostKeepsCounter(s, u.c, j.frame);
    QueuedPost(s, u.c, j, queued);
    AckedPost(s, u.c, j, queued, acked);
    assert queued + [] == queued && acked + [] == acked;
  }

  lemma QueuedOne(queued: seq<CpuId>, todo: seq<CpuId>)
    requires todo != []
    ensures (queued + [todo[0]]) + todo[1..] == queued + todo
    ensures multiset(queued + [todo[0]]) == multiset(queued) + multiset{todo[0]}
  {
  }

  lemma DecrementSends(s: State, c: CpuId, x: CallId, d: CpuId)
    requires Inv(s) && CanDecrement(s, c, x) && d < |s.cpus| == |DecrementCount(s, c, x).cpus|
    ensures var v, v' := s.cpus[d], DecrementCount(s, c, x).cpus[d];
      && v'.sends == v.sends
      && if s.calls[x].result == Some(Frame(d, v.sends))
         then v.send.Sending? && v'.send == v.send.(acked := v.send.acked - 1) else v'.send == v.send
  {
    AcknowledgedIsOwed(s, c, x);
  }

  lemma SoFarDecrement(s: State, u: Step, j: Job, queued: seq<CpuId>, acked: seq<CpuId>)
    requires Inv(s) && Enabled(s, u) && u.DecrementStep? && SoFar(s, j, queued, acked)
    ensures SoFar(Apply(s, u), j, queued + QueuedBy(s, u, j.frame), acked + AckedBy(s, u, j.frame))
  {
    SameNumber(s, u);
    QueuedByStep(s, u, j.frame);
    DecrementPending(s, u.c, u.x, j.frame);
    DecrementSends(s, u.c, u.x, j.frame.cpu);
    assert queued + [] == queued && acked + [] == acked;
  }

  lemma SoFarStep(s: State, u: Step, j: Job, queued: seq<CpuId>, acked: seq<CpuId>)
    requires Inv(s) && Enabled(s, u) && SoFar(s, j, queued, acked)
    ensures SoFar(Apply(s, u), j, queued + QueuedBy(s, u, j.frame), acked + AckedBy(s, u, j.frame))
  {
    if u.StartStep? {
      SoFarStart(s, u, j, queued, acked);
    } else if u.PostStep? {
      SoFarPost(s, u, j, queued, acked);
    } else if u.DecrementStep? {
      SoFarDecrement(s, u, j, queued, acked);
    } else {
      SoFarPlain(s, u, j, queued, acked);
    }
  }

  lemma Regroup(a: seq<CpuId>, b: seq<CpuId>, c: seq<CpuId>)
    ensures (a + b) + c == a + (b + c)
  {
  }

  lemma {:induction false} SoFarRun(s: State, t: seq<Step>, j: Job, queued: seq<CpuId>, acked: seq<CpuId>)
    requires Inv(s) && IsRun(s, t) && SoFar(s, j, queued, acked)
    ensures SoFar(Run(s, t), j, queued + QueuedFor(s, t, j.frame), acked + AckedFor(s, t, j.frame))
    decreases |t|
  {
    if t == [] {
      assert queued + [] == queued && acked + [] == acked;
    } else {
      var u, s', f := t[0], Apply(s, t[0]), j.frame;
      SoFarStep(s, u, j, queued, acked);
      InvStep(s, u);
      SoFarRun(s', t[1..], j, queued + QueuedBy(s, u, f), acked + AckedBy(s, u, f));
      Regroup(queued, QueuedBy(s, u, f), QueuedFor(s', t[1..], f));
      Regroup(acked, AckedBy(s, u, f), AckedFor(s', t[1..], f));
    }
  }

  /** At the start nothing is queued. */
  lemma SoFarBegin(s: State, c: CpuId, single: bool, sync: bool, todo: seq<CpuId>)
    requires Inv(s) && CanStart(s, c, single, todo)
    ensures var j := Job(Frame(c, s.cpus[c].sends + 1), single, sync, todo);
      SoFar(Start(s, c, single, sync, todo), j, [], [])
  {
    var f, s' := Frame(c, s.cpus[c].sends + 1), Start(s, c, single, sync, todo);
    InvStart(s, c, single, sync, todo);
    OtherPending(s, StartStep(c, single, sync, todo), f);
    PendingIsLive(s, f);
    assert [] + todo == todo;
  }

  lemma SoFarReaches(s: State, j: Job, queued: seq<CpuId>, acked: seq<CpuId>)
    requires Inv(s) && SoFar(s, j, queued, acked)
    ensures queued <= j.todo && multiset(acked) <= multiset(queued)
    ensures Over(s, j.frame) ==>
      queued == j.todo && multiset(acked) == if j.sync then multiset(j.todo) else multiset{}
    ensures AtWork(s, j.frame) || Over(s, j.frame)
  {
    if Over(s, j.frame) {
      PendingIsLive(s, j.frame);
    }
  }

  lemma RunReaches(s: State, t: seq<Step>, j: Job)
    requires Inv(s) && IsRun(s, t) && SoFar(s, j, [], [])
    ensures var queued, acked, end := QueuedFor(s, t, j.frame), AckedFor(s, t, j.frame), Run(s, t);
      && queued <= j.todo && multiset(acked) <= multiset(queued)
      && (Over(end, j.frame) ==>
            queued == j.todo && multiset(acked) == if j.sync then multiset(j.todo) else multiset{})
      && (AtWork(end, j.frame) || Over(end, j.frame))
  {
    SoFarRun(s, t, j, [], []);
    InvRun(s, t);
    var queued, acked := QueuedFor(s, t, j.frame), AckedFor(s, t, j.frame);
    assert [] + queued == queued && [] + acked == acked;
    SoFarReaches(Run(s, t), j, queued, acked);
  }

  /**
    A send queues its calls in order, and when it is over it has queued exactly
    one call to each of its destinations and none to any other CPU.  If it was
    synchronous, each of them has acknowledged.
   */
  lemma SendReachesAll(s: State, c: CpuId, single: bool, sync: bool, todo: seq<CpuId>, t: seq<Step>)
    requires Reachable(s) && CanStart(s, c, single, todo)
    requires IsRun(Apply(s, StartStep(c, single, sync, todo)), t)
    ensures var s0, f := Apply(s, StartStep(c, single, sync, todo)), Frame(c, s.cpus[c].sends + 1);
      var queued, acked, end := QueuedFor(s0, t, f), AckedFor(s0, t, f), Run(s0, t);
      && queued <= todo && multiset(acked) <= multiset(queued)
      && (Over(end, f) ==> queued == todo && multiset(acked) == if sync then multiset(todo) else multiset{})
      && (AtWork(end, f) || Over(end, f))
  {
    ReachableInv(s);
    SoFarBegin(s, c, single, sync, todo);
    InvStart(s, c, single, sync, todo);
    RunReaches(Start(s, c, single, sync, todo), t, Job(Frame(c, s.cpus[c].sends + 1), single, sync, todo));
  }

  /** The destinations of smp_call_broadcast: all running CPUs but the current one. */
  function Others(running: seq<CpuId>, c: CpuId): seq<CpuId> {
    if running == [] then [] else
    (if running[0] == c then [] else [running[0]]) + Others(running[1..], c)
  }

  lemma {:induction false} OthersCount(running: seq<CpuId>, c: CpuId, d: CpuId)
    ensures multiset(Others(running, c))[d] == if d == c then 0 else multiset(running)[d]
  {
    if running != [] {
      OthersCount(running[1..], c, d);
      assert running == [running[0]] + running[1..];
    }
  }

  /** A broadcast that is over has called each running CPU other than its own, as often as it is listed. */
  lemma BroadcastReachesAll(s: State, c: CpuId, sync: bool, running: seq<CpuId>, t: seq<Step>, d: CpuId)
    requires Reachable(s) && CanStart(s, c, false, Others(running, c))
    requires IsRun(Apply(s, StartStep(c, false, sync, Others(running, c))), t)
    ensures var s0, f := Apply(s, StartStep(c, false, sync, Others(running, c))), Frame(c, s.cpus[c].sends + 1);
      Over(Run(s0, t), f) ==>
        && multiset(QueuedFor(s0, t, f))[d] == (if d == c then 0 else multiset(running)[d])
        && multiset(AckedFor(s0, t, f))[d] == (if d == c || !sync then 0 else multiset(running)[d])
  {
    SendReachesAll(s, c, false, sync, Others(running, c), t);
    OthersCount(running, c, d);
  }

  // ---------------------------------------------------------------------
  // The queue of a CPU and its interrupts

  /** The structure that a step queues to CPU d. */
  function PostedBy(s: State, u: Step, d: CpuId): seq<CallId>
    requires Enabled(s, u)
  {
    if u.PostStep? && s.cpus[u.c].send.todo[0] == d then [s.cpus[u.c].send.phase.call] else []
  }

  /** The structure that the handler of CPU d begins with. */
  function TakenBy(s: State, u: Step, d: CpuId): seq<CallId>
    requires Enabled(s, u)
  {
    if u != LockStep(d) then [] else
    var h := LockQueue(s, d).cpus[d].handler;
    if h.Running? then [h.call] else []
  }

  function PostedTo(s: State, t: seq<Step>, d: CpuId): seq<CallId>
    requires IsRun(s, t)
    decreases |t|
  {
    if t == [] then [] else PostedBy(s, t[0], d) + PostedTo(Apply(s, t[0]), t[1..], d)
  }

  function TakenFrom(s: State, t: seq<Step>, d: CpuId): seq<CallId>
    requires IsRun(s, t)
    decreases |t|
  {
    if t == [] then [] else TakenBy(s, t[0], d) + TakenFrom(Apply(s, t[0]), t[1..], d)
  }

  lemma OneInOrder(s: State, u: Step, d: CpuId)
    requires Enabled(s, u) && d < |s.cpus| == |Apply(s, u).cpus|
    ensures s.cpus[d].queue + PostedBy(s, u, d) == TakenBy(s, u, d) + Apply(s, u).cpus[d].queue
  {
    var q, q' := s.cpus[d].queue, Apply(s, u).cpus[d].queue;
    if u.PostStep? {
      assert s.cpus[u.c].send.todo[0] == d ==> q' == q + [s.cpus[u.c].send.phase.call];
    } else if u == LockStep(d) {
      assert q' == q || q == [q[0]] + q';
    } else {
      OtherQueue(s, u, d);
    }
  }

  /** Other steps leave the queue and its announcement alone, and raise no interrupt. */
  predicate QueueStays(v: Cpu, v': Cpu) {
    v'.queue == v.queue && v'.ipiSent == v.ipiSent && (v'.pending ==> v.pending)
  }

  lemma QueueStaysSender(s: State, u: Step, d: CpuId)
    requires Enabled(s, u) && d < |s.cpus| == |Apply(s, u).cpus| && !u.PostStep? && !HandlerStep(u)
    ensures QueueStays(s.cpus[d], Apply(s, u).cpus[d])
  {
  }

  lemma QueueStaysHandler(s: State, u: Step, d: CpuId)
    requires Enabled(s, u) && d < |s.cpus| == |Apply(s, u).cpus| && HandlerStep(u) && u != LockStep(d)
    ensures QueueStays(s.cpus[d], Apply(s, u).cpus[d])
  {
  }

  lemma OtherQueue(s: State, u: Step, d: CpuId)
    requires Enabled(s, u) && d < |s.cpus| == |Apply(s, u).cpus| && !u.PostStep? && u != LockStep(d)
    ensures QueueStays(s.cpus[d], Apply(s, u).cpus[d])
  {
    if HandlerStep(u) {
      QueueStaysHandler(s, u, d);
    } else {
      QueueStaysSender(s, u, d);
    }
  }

  lemma InOrderStep(q: seq<CallId>, p: seq<CallId>, k: seq<CallId>, q': seq<CallId>, p': seq<CallId>,
                    k': seq<CallId>, q'': seq<CallId>)
    requires q + p == k + q' && q' + p' == k' + q''
    ensures q + (p + p') == (k + k') + q''
  {
    assert q + (p + p') == (q + p) + p' && k + (q' + p') == (k + q') + p' && k + (k' + q'') == (k + k') + q'';
  }

  /** A CPU handles its calls in the order in which they were queued, and leaves none out. */
  lemma {:induction false} HandledInOrder(s: State, t: seq<Step>, d: CpuId)
    requires IsRun(s, t) && d < |s.cpus|
    ensures |Run(s, t).cpus| == |s.cpus|
    ensures s.cpus[d].queue + PostedTo(s, t, d) == TakenFrom(s, t, d) + Run(s, t).cpus[d].queue
    decreases |t|
  {
    if t != [] {
      var s' := Apply(s, t[0]);
      SameNumber(s, t[0]);
      OneInOrder(s, t[0], d);
      HandledInOrder(s', t[1..], d);
      InOrderStep(s.cpus[d].queue, PostedBy(s, t[0], d), TakenBy(s, t[0], d), s'.cpus[d].queue,
                  PostedTo(s', t[1..], d), TakenFrom(s', t[1..], d), Run(s, t).cpus[d].queue);
    }
  }

  function Flag(b: bool): nat {
    if b then 1 else 0
  }

  /** How often an interrupt is raised at CPU d. */
  function Interrupts(s: State, t: seq<Step>, d: CpuId): nat
    requires IsRun(s, t) && d < |s.cpus|
    decreases |t|
  {
    if t == [] then 0 else
    SameNumber(s, t[0]);
    var s' := Apply(s, t[0]);
    Flag(!s.cpus[d].pending && s'.cpus[d].pending) + Interrupts(s', t[1..], d)
  }

  /** How often CPU d finds nothing left in its queue. */
  function Emptied(s: State, t: seq<Step>, d: CpuId): nat
    requires IsRun(s, t) && d < |s.cpus|
    decreases |t|
  {
    if t == [] then 0 else
    SameNumber(s, t[0]);
    Flag(t[0] == LockStep(d) && s.cpus[d].queue == []) + Emptied(Apply(s, t[0]), t[1..], d)
  }

  lemma OneInterrupt(s: State, u: Step, d: CpuId)
    requires Enabled(s, u) && d < |s.cpus| == |Apply(s, u).cpus|
    ensures var v, v' := s.cpus[d], Apply(s, u).cpus[d];
      Flag(!v.pending && v'.pending) + Flag(v.ipiSent)
        <= Flag(u == LockStep(d) && v.queue == []) + Flag(v'.ipiSent)
  {
    if !u.PostStep? && u != LockStep(d) {
      OtherQueue(s, u, d);
    }
  }

  /** Interrupts are not sent needlessly: after the first, one at most for each time the queue was found empty. */
  lemma {:induction false} InterruptsAreNeeded(s: State, t: seq<Step>, d: CpuId)
    requires IsRun(s, t) && d < |s.cpus|
    ensures |Run(s, t).cpus| == |s.cpus|
    ensures Interrupts(s, t, d) + Flag(s.cpus[d].ipiSent) <= Emptied(s, t, d) + Flag(Run(s, t).cpus[d].ipiSent)
    decreases |t|
  {
    if t != [] {
      SameNumber(s, t[0]);
      OneInterrupt(s, t[0], d);
      InterruptsAreNeeded(Apply(s, t[0]), t[1..], d);
    }
  }

  // ---------------------------------------------------------------------
  // The status of a call

  /** What a CPU answered last: the status it acknowledged with, or what the called function returned. */
  function LastAnswer(t: seq<Step>, d: CpuId): Option<int> {
    if t == [] then None else
    var u := t[|t| - 1];
    if u.AcknowledgeStep? && u.c == d then Some(u.status)
    else if u.ReturnStep? && u.c == d then Some(u.ret)
    else LastAnswer(t[..|t| - 1], d)
  }

  /** The answer of the CPU that acknowledged call x last. */
  function AnswerFor(t: seq<Step>, x: CallId): Option<int> {
    if t == [] then None else
    var u := t[|t| - 1];
    if u.DecrementStep? && u.x == x then LastAnswer(t[..|t| - 1], u.c) else AnswerFor(t[..|t| - 1], x)
  }

  lemma {:induction false} RunLast(s: State, t: seq<Step>, u: Step)
    requires IsRun(s, t + [u])
    ensures IsRun(s, t) && Enabled(Run(s, t), u) && Run(s, t + [u]) == Apply(Run(s, t), u)
    decreases |t|
  {
    if t != [] {
      assert (t + [u])[1..] == t[1..] + [u];
      RunLast(Apply(s, t[0]), t[1..], u);
    } else {
      assert (t + [u])[1..] == [];
    }
  }

  /** A handler on its way to acknowledge has the last answer of its CPU. */
  predicate HandlerAnswers(s: State, t: seq<Step>, d: CpuId)
    requires d < |s.cpus|
  {
    match s.cpus[d].handler
    case AckDec(x) => x < |s.calls| && LastAnswer(t, d) == Some(s.calls[x].status)
    case FinDec(x) => x < |s.calls| && LastAnswer(t, d) == Some(s.calls[x].status)
    case Returned(_, ret) => LastAnswer(t, d) == Some(ret)
    case _ => true
  }

  predicate CallAnswered(s: State, t: seq<Step>, x: CallId)
    requires x < |s.calls|
  {
    s.calls[x].delivered.Some? ==> s.calls[x].delivered == AnswerFor(t, x)
  }

  lemma LastAnswerStep(t: seq<Step>, u: Step, d: CpuId)
    ensures LastAnswer(t + [u], d) == if u.AcknowledgeStep? && u.c == d then Some(u.status)
                                      else if u.ReturnStep? && u.c == d then Some(u.ret) else LastAnswer(t, d)
  {
    assert (t + [u])[..|t|] == t;
  }

  lemma AnswerForStep(t: seq<Step>, u: Step, x: CallId)
    ensures AnswerFor(t + [u], x) == if u.DecrementStep? && u.x == x then LastAnswer(t, u.c) else AnswerFor(t, x)
  {
    assert (t + [u])[..|t|] == t;
  }

  /** The handler of the CPU itself moves on. */
  lemma OwnAnswer(s: State, t: seq<Step>, u: Step)
    requires Inv(s) && Enabled(s, u) && u.c < |s.cpus| == |Apply(s, u).cpus| && HandlerAnswers(s, t, u.c)
    ensures HandlerAnswers(Apply(s, u), t + [u], u.c)
  {
    LastAnswerStep(t, u, u.c);
  }

  /** Other CPUs do not touch the status of the call it handles. */
  lemma OtherAnswer(s: State, t: seq<Step>, u: Step, d: CpuId)
    requires Inv(s) && Enabled(s, u) && d < |s.cpus| == |Apply(s, u).cpus| && d != u.c && HandlerAnswers(s, t, d)
    ensures HandlerAnswers(Apply(s, u), t + [u], d)
  {
    LastAnswerStep(t, u, d);
    HandlerStays(s, u, d);
    assert CpuOk(s, d) && CpuOk(s, u.c);
    var h := s.cpus[d].handler;
    if h.AckDec? || h.FinDec? {
      StatusStays(s, u, h.call);
    }
  }

  lemma HandlerStays(s: State, u: Step, d: CpuId)
    requires Enabled(s, u) && d < |s.cpus| == |Apply(s, u).cpus| && d != u.c
    ensures Apply(s, u).cpus[d].handler == s.cpus[d].handler && u.c < |s.cpus|
  {
  }

  /** A status changes only through the handler that has the call. */
  lemma StatusStays(s: State, u: Step, x: CallId)
    requires Enabled(s, u) && x < |s.calls|
    ensures |Apply(s, u).calls| == |s.calls|
    ensures Apply(s, u).calls[x].status != s.calls[x].status ==> (u.AcknowledgeStep? || u.FinishStep?) && u.x == x
  {
    SameNumber(s, u);
  }

  lemma CallStep(s: State, t: seq<Step>, u: Step, x: CallId)
    requires Inv(s) && Enabled(s, u) && x < |s.calls| && CallAnswered(s, t, x)
    requires u.c < |s.cpus| && HandlerAnswers(s, t, u.c)
    ensures |Apply(s, u).calls| == |s.calls| && CallAnswered(Apply(s, u), t + [u], x)
  {
    SameNumber(s, u);
    AnswerForStep(t, u, x);
    if u.DecrementStep? {
      AcknowledgedIsOwed(s, u.c, u.x);
    } else {
      DeliveredStays(s, u, x);
    }
  }

  lemma DeliveredStays(s: State, u: Step, x: CallId)
    requires Enabled(s, u) && x < |s.calls| == |Apply(s, u).calls| && !u.DecrementStep?
    ensures Apply(s, u).calls[x].delivered.Some? ==> Apply(s, u).calls[x].delivered == s.calls[x].delivered
  {
  }

  lemma {:induction false} AnswersRun(s: State, t: seq<Step>)
    requires Init(s) && IsRun(s, t)
    ensures Inv(Run(s, t))
    ensures forall d :: 0 <= d < |Run(s, t).cpus| ==> HandlerAnswers(Run(s, t), t, d)
    ensures forall x :: 0 <= x < |Run(s, t).calls| ==> CallAnswered(Run(s, t), t, x)
    decreases |t|
  {
    InvInit(s);
    InvRun(s, t);
    if t != [] {
      var u, front := t[|t| - 1], t[..|t| - 1];
      assert t == front + [u];
      RunLast(s, front, u);
      AnswersRun(s, front);
      var s1 := Run(s, front);
      SameNumber(s1, u);
      assert u.c < |s1.cpus|;
      forall d | 0 <= d < |s1.cpus| ensures HandlerAnswers(Run(s, t), t, d) {
        if d == u.c {
          OwnAnswer(s1, front, u);
        } else {
          OtherAnswer(s1, front, u, d);
        }
      }
      forall x | 0 <= x < |s1.calls| ensures CallAnswered(Run(s, t), t, x) {
        CallStep(s1, front, u, x);
      }
    }
  }

  /** The status that a synchronous sender reads is the one its destination acknowledged with or returned. */
  lemma StatusIsAnswer(s: State, t: seq<Step>, c: CpuId)
    requires Init(s) && IsRun(s, t) && CanLeave(Run(s, t), c) && Run(s, t).cpus[c].send.phase.kept.Some?
    ensures var x := Run(s, t).cpus[c].send.phase.kept.value;
      x < |Run(s, t).calls| && AnswerFor(t, x) == Some(Run(s, t).calls[x].status)
  {
    AnswersRun(s, t);
    var end := Run(s, t);
    assert Reachable(end);
    LeavesAfterAllAcks(end, c);
    assert CallAnswered(end, t, end.cpus[c].send.phase.kept.value);
  }
}
