/**
  The inductive invariant of the cross-CPU call protocol and its proof, one
  lemma for each step.
 */
module SmpInvariant {
  import opened Options
  import opened SmpCall

  function Refs(b: bool): nat {
    if b then 1 else 0
  }

  /** The sender's phase is one in which it owns or references x. */
  predicate SenderKeeps(s: State, c: CpuId, x: CallId) {
    c < |s.cpus| && s.cpus[c].send.Sending? &&
    var p := s.cpus[c].send.phase;
    p == Drop(x) || p == Await(Some(x)) || p == Enqueue(x)
  }

  /** The structure is where its history says, and its count is the number of references. */
  predicate PlaceOk(s: State, x: CallId)
    requires x < |s.calls|
  {
    var k := s.calls[x];
    && (k.held.Some? ==> SenderKeeps(s, k.held.value, x))
    && match k.place
       case Pooled => k.count == 0 && k.held.None? && x in s.pool
       case Filling(c) => k.count == 0 && k.held.None? && c < |s.cpus| && s.cpus[c].send.Sending? &&
         s.cpus[c].send.phase == Fill(x)
       case Ready(c) => k.count == 2 && k.held == Some(c) && s.cpus[c].send.phase == Enqueue(x)
       case Queued(c) => k.count == 1 + Refs(k.held.Some?) && c < |s.cpus| && x in s.cpus[c].queue
       case Handling(c) => k.count == 1 + Refs(k.held.Some?) && c < |s.cpus| && s.cpus[c].handler.Handles(x)
       case Finished => k.count == 1 && k.held.Some?
       case SenderFrees(c) => k.count == 0 && k.held.None? && c < |s.cpus| && s.cpus[c].send.Sending? &&
         s.cpus[c].send.phase == Free(x)
       case HandlerFrees(c) => k.count == 0 && k.held.None? && c < |s.cpus| && s.cpus[c].handler == Freeing(x)
  }

  /** The call still has to be acknowledged. */
  predicate Owes(k: Call) {
    k.origin.Some? && k.acks == 0 && (k.place.Ready? || k.place.Queued? || k.place.Handling?)
  }

  /** A synchronous call is acknowledged at most once, and its status does not change afterwards. */
  predicate AckOk(s: State, x: CallId)
    requires x < |s.calls|
  {
    var k := s.calls[x];
    && k.acks <= 1
    && (k.acks == 1 ==> k.origin.Some? && k.delivered == Some(k.status))
    && (k.place.Ready? || k.place.Queued? ==> k.acks == 0 && k.result == k.origin)
    && (k.place.Handling? && k.place.cpu < |s.cpus| ==>
          match s.cpus[k.place.cpu].handler
          case Running(_) => k.result == if k.acks == 0 then k.origin else None
          case Returned(_, _) => k.result == if k.acks == 0 then k.origin else None
          case AckDec(_) => k.acks == 0 && k.origin.Some? && k.result == k.origin
          case FinDec(_) => k.acks == 0 && k.origin.Some? && k.result == k.origin
          case AckClear(_) => k.acks == 1 && k.result == k.origin
          case Releasing(_) => k.origin.Some? ==> k.acks == 1
          case _ => true)
    && (k.place.Finished? && k.origin.Some? ==> k.acks == 1)
    && (Owes(k) ==> FrameLive(s, k.origin.value))
    && (k.held.Some? && k.held.value < |s.cpus| && s.cpus[k.held.value].send.Sending? ==>
          k.origin == if s.cpus[k.held.value].send.sync
            then Some(Frame(k.held.value, s.cpus[k.held.value].sends)) else None)
  }

  /** The frame belongs to the synchronous send its CPU is making right now. */
  predicate FrameLive(s: State, f: Frame) {
    f.cpu < |s.cpus| && s.cpus[f.cpu].send.Sending? && s.cpus[f.cpu].send.sync && s.cpus[f.cpu].sends == f.sendNo
  }

  predicate Distinct(xs: seq<CallId>) {
    forall i, j :: 0 <= i < j < |xs| ==> xs[i] != xs[j]
  }

  /** What the sender's phase says about the structure it names, and the shape of the job. */
  predicate SendOk(s: State, c: CpuId)
    requires c < |s.cpus|
  {
    var u := s.cpus[c].send;
    u.Sending? ==>
      && (forall i :: 0 <= i < |u.todo| ==> u.todo[i] < |s.cpus| && u.todo[i] != c)
      && (u.phase.Get? || u.phase.Fill? || u.phase.Enqueue? ==> u.todo != [])
      && (u.phase.Await? ==> u.sync && (u.phase.kept.Some? <==> u.single) && u.todo == [])
      && (u.single ==> |u.todo| <= 1)
      && (u.single && u.sync && (u.phase.Drop? || u.phase.Free?) ==> u.acked == 0)
      && match u.phase
         case Get => true
         case Fill(x) => x < |s.calls| && s.calls[x].place == Filling(c)
         case Enqueue(x) => x < |s.calls| && s.calls[x].place == Ready(c)
         case Await(k) => k.Some? ==> k.value < |s.calls| && s.calls[k.value].held == Some(c)
         case Drop(x) => x < |s.calls| && s.calls[x].held == Some(c) && !s.calls[x].place.Ready?
         case Free(x) => x < |s.calls| && s.calls[x].place == SenderFrees(c)
  }

  predicate HandlerOk(s: State, c: CpuId)
    requires c < |s.cpus|
  {
    match s.cpus[c].handler
    case NoHandler => true
    case Entered => true
    case Relock => true
    case Freeing(x) => x < |s.calls| && s.calls[x].place == HandlerFrees(c)
    case h => h.call < |s.calls| && s.calls[h.call].place == Handling(c)
  }

  predicate QueueOk(s: State, c: CpuId)
    requires c < |s.cpus|
  {
    var q := s.cpus[c].queue;
    && Distinct(q)
    && (forall i :: 0 <= i < |q| ==> q[i] < |s.calls| && s.calls[q[i]].place == Queued(c))
  }

  /** No call is left behind: a waiting call means an IPI was sent, and that IPI or a handler is still to come. */
  predicate IpiOk(s: State, c: CpuId)
    requires c < |s.cpus|
  {
    var u := s.cpus[c];
    && (u.queue != [] ==> u.ipiSent)
    && (u.ipiSent ==> u.pending || !u.handler.NoHandler?)
    && (!u.handler.NoHandler? && !u.handler.Entered? ==> u.ipiSent)
  }

  /** The calls whose acknowledgement CPU c is counting down. */
  function Owed(s: State, c: CpuId): set<CallId>
    requires c < |s.cpus|
  {
    set x | 0 <= x < |s.calls| && Owes(s.calls[x]) && s.calls[x].origin == Some(Frame(c, s.cpus[c].sends))
  }

  predicate CounterOk(s: State, c: CpuId)
    requires c < |s.cpus|
  {
    var u := s.cpus[c].send;
    && (u.Sending? ==> u.acked == |Owed(s, c)|)
    && (!u.Sending? || !u.sync ==> Owed(s, c) == {})
  }

  predicate PoolOk(s: State) {
    && Distinct(s.pool)
    && (forall i :: 0 <= i < |s.pool| ==> s.pool[i] < |s.calls| && s.calls[s.pool[i]].place == Pooled)
  }

  predicate CpuOk(s: State, c: CpuId)
    requires c < |s.cpus|
  {
    SendOk(s, c) && HandlerOk(s, c) && QueueOk(s, c) && IpiOk(s, c)
  }

  /** Places and references only. */
  predicate Structure(s: State) {
    && |s.calls| == CALLS_PER_CPU * |s.cpus|
    && PoolOk(s)
    && (forall c :: 0 <= c < |s.cpus| ==> CpuOk(s, c))
    && (forall x :: 0 <= x < |s.calls| ==> PlaceOk(s, x))
  }

  /** Places, references and acknowledgements, without the counters. */
  predicate StructureAcks(s: State) {
    Structure(s) && forall x :: 0 <= x < |s.calls| ==> AckOk(s, x)
  }

  ghost predicate Inv(s: State) {
    && StructureAcks(s)
    && !s.dangling
    && (forall c :: 0 <= c < |s.cpus| ==> CounterOk(s, c))
  }

  /** The call a handler is about to acknowledge is one its sender is counting. */
  lemma AcknowledgedIsOwed(s: State, c: CpuId, x: CallId)
    requires Inv(s) && CanDecrement(s, c, x)
    ensures s.calls[x].result == s.calls[x].origin && s.calls[x].origin.Some? && s.calls[x].acks == 0
    ensures s.calls[x].place == Handling(c)
    ensures FrameLive(s, s.calls[x].origin.value)
    ensures x in Owed(s, s.calls[x].origin.value.cpu)
    ensures s.cpus[s.calls[x].origin.value.cpu].send.acked > 0
  {
    assert CpuOk(s, c);
    assert PlaceOk(s, x) && AckOk(s, x);
    var d := s.calls[x].origin.value.cpu;
    assert CounterOk(s, d);
    assert x in Owed(s, d);
  }

  /** A sender whose counter is zero, or that does not count, is owed nothing. */
  lemma NothingOwed(s: State, c: CpuId)
    requires Inv(s) && c < |s.cpus|
    requires s.cpus[c].send.Sending? ==> s.cpus[c].send.acked == 0 || !s.cpus[c].send.sync
    ensures forall y :: 0 <= y < |s.calls| && Owes(s.calls[y]) ==> s.calls[y].origin != Some(Frame(c, s.cpus[c].sends))
  {
    assert CounterOk(s, c);
    assert Owed(s, c) == {};
    forall y | 0 <= y < |s.calls| && Owes(s.calls[y]) ensures s.calls[y].origin != Some(Frame(c, s.cpus[c].sends)) {
      assert y !in Owed(s, c);
    }
  }

  // ---------------------------------------------------------------------
  // A step touches one call and at most two CPUs; everything else is framed

  predicate PhaseNames(u: Send, y: CallId) {
    u.Sending? &&
    (u.phase == Fill(y) || u.phase == Enqueue(y) || u.phase == Drop(y) || u.phase == Free(y) ||
      u.phase == Await(Some(y)))
  }

  predicate DestNames(u: Cpu, y: CallId) {
    y in u.queue || u.handler.Handles(y) || u.handler == Freeing(y)
  }

  /** The change from u to u' does not concern call y. */
  predicate AgreeOn(u: Cpu, u': Cpu, y: CallId) {
    && u'.sends == u.sends
    && (y in u.queue <==> y in u'.queue)
    && (u.handler.Handles(y) || u.handler == Freeing(y) ==> u'.handler == u.handler)
    && (PhaseNames(u.send, y) ==> u'.send.Sending? && u'.send.phase == u.send.phase && u'.send.sync == u.send.sync)
  }

  lemma FramePlace(s: State, s': State, y: CallId)
    requires |s'.cpus| == |s.cpus| && y < |s.calls| == |s'.calls| && s'.calls[y] == s.calls[y]
    requires y in s.pool ==> y in s'.pool
    requires forall d :: 0 <= d < |s.cpus| ==> AgreeOn(s.cpus[d], s'.cpus[d], y)
    requires PlaceOk(s, y)
    ensures PlaceOk(s', y)
  {
  }

  lemma FrameAck(s: State, s': State, y: CallId)
    requires |s'.cpus| == |s.cpus| && y < |s.calls| == |s'.calls| && s'.calls[y] == s.calls[y]
    requires forall d :: 0 <= d < |s.cpus| ==> AgreeOn(s.cpus[d], s'.cpus[d], y)
    requires PlaceOk(s, y) && AckOk(s, y)
    requires Owes(s.calls[y]) ==> FrameLive(s', s.calls[y].origin.value)
    ensures AckOk(s', y)
  {
  }

  /** Who can name a call: the CPU its place says, or the sender that holds it. */
  lemma WhoNames(s: State, d: CpuId, x: CallId)
    requires Structure(s) && d < |s.cpus| && x < |s.calls|
    ensures DestNames(s.cpus[d], x) ==> s.calls[x].place in {Queued(d), Handling(d), HandlerFrees(d)}
    ensures PhaseNames(s.cpus[d].send, x) ==>
      s.calls[x].place in {Filling(d), Ready(d), SenderFrees(d)} ||
      (s.calls[x].held == Some(d) && (s.cpus[d].send.phase.Drop? || s.cpus[d].send.phase.Await?))
  {
    assert CpuOk(s, d);
  }

  lemma FrameCpu(s: State, s': State, d: CpuId, x: CallId)
    requires d < |s.cpus| == |s'.cpus| && |s'.calls| == |s.calls| && s'.cpus[d] == s.cpus[d]
    requires forall y :: 0 <= y < |s.calls| && y != x ==> s'.calls[y] == s.calls[y]
    requires DestNames(s.cpus[d], x) ==> x < |s.calls| && s'.calls[x].place == s.calls[x].place
    requires PhaseNames(s.cpus[d].send, x) ==>
      && (s.cpus[d].send.phase.Drop? || s.cpus[d].send.phase.Await?)
      && x < |s.calls| && s'.calls[x].held == Some(d) && !s'.calls[x].place.Ready?
    requires CpuOk(s, d)
    ensures CpuOk(s', d)
  {
  }

  /** The structure survives a step that touches call x and CPUs c and e. */
  lemma LocalStep(s: State, s': State, c: CpuId, e: CpuId, x: CallId)
    requires StructureAcks(s) && c < |s.cpus| == |s'.cpus| && e < |s.cpus| && x < |s.calls| == |s'.calls|
    requires forall d :: 0 <= d < |s.cpus| && d != c && d != e ==> s'.cpus[d] == s.cpus[d]
    requires forall y :: 0 <= y < |s.calls| && y != x ==> s'.calls[y] == s.calls[y]
    requires forall y ::
      0 <= y < |s.calls| && y != x ==> AgreeOn(s.cpus[c], s'.cpus[c], y) && AgreeOn(s.cpus[e], s'.cpus[e], y)
    requires forall y :: 0 <= y < |s.calls| && y != x && Owes(s.calls[y]) ==> FrameLive(s', s.calls[y].origin.value)
    requires PoolOk(s') && forall y :: y != x && y in s.pool ==> y in s'.pool
    requires (s'.calls[x].place == s.calls[x].place && (s.calls[x].place.Queued? || s.calls[x].place.Handling?)) ||
             s.calls[x].place.Pooled? || s.calls[x].place.Finished? || s.calls[x].place.cpu in {c, e}
    requires s.calls[x].held.None? || s.calls[x].held.value in {c, e} ||
             (s'.calls[x].held == s.calls[x].held && !s'.calls[x].place.Ready?)
    requires CpuOk(s', c) && CpuOk(s', e) && PlaceOk(s', x) && AckOk(s', x)
    ensures StructureAcks(s')
  {
    forall d | 0 <= d < |s.cpus| ensures CpuOk(s', d) {
      if d != c && d != e {
        assert CpuOk(s, d);
        WhoNames(s, d, x);
        FrameCpu(s, s', d, x);
      }
    }
    forall y | 0 <= y < |s.calls| ensures PlaceOk(s', y) && AckOk(s', y) {
      if y != x {
        assert PlaceOk(s, y) && AckOk(s, y);
        FramePlace(s, s', y);
        FrameAck(s, s', y);
      }
    }
  }

  /** Counters that keep running keep their frames alive. */
  lemma FramesStayLive(s: State, s': State)
    requires StructureAcks(s) && |s'.cpus| == |s.cpus|
    requires forall d :: 0 <= d < |s.cpus| ==>
      s'.cpus[d].sends == s.cpus[d].sends &&
      (s.cpus[d].send.Sending? && s.cpus[d].send.sync ==> s'.cpus[d].send.Sending? && s'.cpus[d].send.sync)
    ensures forall y :: 0 <= y < |s.calls| && Owes(s.calls[y]) ==> FrameLive(s', s.calls[y].origin.value)
  {
    forall y | 0 <= y < |s.calls| && Owes(s.calls[y]) ensures FrameLive(s', s.calls[y].origin.value) {
      assert AckOk(s, y);
    }
  }

  /** The counters of all CPUs, when only x may have started or stopped being owed. */
  lemma SameCounters(s: State, s': State, x: CallId)
    requires Inv(s) && |s'.cpus| == |s.cpus| && |s'.calls| == |s.calls|
    requires forall y :: 0 <= y < |s.calls| && y != x ==> s'.calls[y] == s.calls[y]
    requires x < |s.calls| ==>
      Owes(s.calls[x]) == Owes(s'.calls[x]) && (Owes(s.calls[x]) ==> s'.calls[x].origin == s.calls[x].origin)
    requires forall d :: 0 <= d < |s.cpus| ==>
      && s'.cpus[d].sends == s.cpus[d].sends
      && (s.cpus[d].send == s'.cpus[d].send ||
          (s.cpus[d].send.Sending? && s'.cpus[d].send.Sending? && s'.cpus[d].send.acked == s.cpus[d].send.acked &&
            s'.cpus[d].send.sync == s.cpus[d].send.sync) ||
          (s'.cpus[d].send.NotSending? &&
            (s.cpus[d].send.Sending? ==> s.cpus[d].send.acked == 0 || !s.cpus[d].send.sync)))
    ensures forall d :: 0 <= d < |s'.cpus| ==> CounterOk(s', d)
  {
    forall d | 0 <= d < |s'.cpus| ensures CounterOk(s', d) {
      assert CounterOk(s, d);
      assert Owed(s', d) == Owed(s, d);
    }
  }

  // ---------------------------------------------------------------------
  // One lemma for each step

  lemma InvStart(s: State, c: CpuId, single: bool, sync: bool, todo: seq<CpuId>)
    requires Inv(s) && CanStart(s, c, single, todo)
    ensures Inv(Start(s, c, single, sync, todo))
  {
    var s' := Start(s, c, single, sync, todo);
    assert CpuOk(s, c);
    forall d | 0 <= d < |s'.cpus| ensures CpuOk(s', d) { assert CpuOk(s, d); }
    forall y | 0 <= y < |s'.calls| ensures PlaceOk(s', y) { assert PlaceOk(s, y); }
    forall y | 0 <= y < |s'.calls| ensures AckOk(s', y) { assert PlaceOk(s, y) && AckOk(s, y); }
    forall d | 0 <= d < |s'.cpus| ensures CounterOk(s', d) {
      assert CounterOk(s, d);
      if d == c {
        forall y | 0 <= y < |s.calls|
          ensures !(Owes(s.calls[y]) && s.calls[y].origin == Some(Frame(c, s'.cpus[c].sends)))
        {
          assert AckOk(s, y);
        }
        assert Owed(s', c) == {};
      } else {
        assert Owed(s', d) == Owed(s, d);
      }
    }
  }

  lemma InvSpin(s: State, c: CpuId)
    requires Inv(s) && CanSpin(s, c)
    ensures Inv(Spin(s, c))
  {
    assert CpuOk(s, c);
    HandlerOnly(s, Spin(s, c), c);
  }

  lemma InvInterrupt(s: State, c: CpuId)
    requires Inv(s) && CanInterrupt(s, c)
    ensures Inv(Interrupt(s, c))
  {
    assert CpuOk(s, c);
    HandlerOnly(s, Interrupt(s, c), c);
  }

  /** Entering or leaving the handler without a call. */
  lemma HandlerOnly(s: State, s': State, c: CpuId)
    requires Inv(s) && c < |s.cpus| && s.cpus[c].handler in {NoHandler, Entered, Relock}
    requires |s'.cpus| == |s.cpus| && s'.cpus == s.cpus[c := s'.cpus[c]] && s'.calls == s.calls && s'.pool == s.pool
    requires !s'.dangling
    requires s'.cpus[c].handler in {NoHandler, Entered}
    requires s'.cpus[c].send == s.cpus[c].send && s'.cpus[c].sends == s.cpus[c].sends
    requires s'.cpus[c].queue == s.cpus[c].queue
    requires IpiOk(s', c)
    ensures Inv(s')
  {
    assert CpuOk(s, c);
    forall d | 0 <= d < |s'.cpus| ensures CpuOk(s', d) { assert CpuOk(s, d); }
    FramesStayLive(s, s');
    forall y | 0 <= y < |s'.calls| ensures PlaceOk(s', y) && AckOk(s', y) {
      assert PlaceOk(s, y) && AckOk(s, y);
      FramePlace(s, s', y);
      FrameAck(s, s', y);
    }
    SameCounters(s, s', |s.calls|);
  }

  lemma InvTake(s: State, c: CpuId)
    requires Inv(s) && CanTake(s, c)
    ensures Inv(TakeFirst(s, c))
  {
    var s' := TakeFirst(s, c);
    assert CpuOk(s, c);
    assert PlaceOk(s, s.pool[0]) && AckOk(s, s.pool[0]);
    FramesStayLive(s, s');
    LocalStep(s, s', c, c, s.pool[0]);
    SameCounters(s, s', s.pool[0]);
  }

  lemma InvSetUp(s: State, c: CpuId)
    requires Inv(s) && CanSetUp(s, c)
    ensures Inv(SetUp(s, c))
  {
    var s' := SetUp(s, c);
    assert CpuOk(s, c);
    assert PlaceOk(s, s.cpus[c].send.phase.call) && AckOk(s, s.cpus[c].send.phase.call);
    FramesStayLive(s, s');
    LocalStep(s, s', c, c, s.cpus[c].send.phase.call);
    forall d | 0 <= d < |s'.cpus| ensures CounterOk(s', d) {
      assert CounterOk(s, d);
      assert Owed(s', d) == if d == c && s.cpus[c].send.sync then Owed(s, d) + {s.cpus[c].send.phase.call}
        else Owed(s, d);
    }
  }

  lemma PostCpus(s: State, c: CpuId)
    requires CanPost(s, c) && CpuOk(s, c) && CpuOk(s, s.cpus[c].send.todo[0]) && PlaceOk(s, s.cpus[c].send.phase.call)
    ensures CpuOk(Post(s, c), c) && CpuOk(Post(s, c), s.cpus[c].send.todo[0])
  {
  }

  lemma InvPost(s: State, c: CpuId)
    requires Inv(s) && CanPost(s, c)
    ensures Inv(Post(s, c))
  {
    var s', x := Post(s, c), s.cpus[c].send.phase.call;
    assert CpuOk(s, c) && CpuOk(s, s.cpus[c].send.todo[0]) && PlaceOk(s, x) && AckOk(s, x);
    PostCpus(s, c);
    FramesStayLive(s, s');
    LocalStep(s, s', c, s.cpus[c].send.todo[0], x);
    SameCounters(s, s', x);
  }

  lemma InvLeave(s: State, c: CpuId)
    requires Inv(s) && CanLeave(s, c)
    ensures Inv(Leave(s, c))
  {
    var s' := Leave(s, c);
    assert CpuOk(s, c);
    NothingOwed(s, c);
    forall d | 0 <= d < |s'.cpus| ensures CpuOk(s', d) {
      assert CpuOk(s, d);
      if d == c && s.cpus[c].send.phase.kept.Some? {
        assert PlaceOk(s, s.cpus[c].send.phase.kept.value);
      }
    }
    forall y | 0 <= y < |s'.calls| ensures PlaceOk(s', y) { assert PlaceOk(s, y); }
    forall y | 0 <= y < |s'.calls| ensures AckOk(s', y) { assert PlaceOk(s, y) && AckOk(s, y); }
    SameCounters(s, s', |s.calls|);
  }

  lemma DropCpu(s: State, c: CpuId, x: CallId)
    requires CanDrop(s, c) && x == s.cpus[c].send.phase.call && CpuOk(s, c) && PlaceOk(s, x)
    ensures CpuOk(DropRef(s, c), c)
  {
  }

  lemma DropCall(s: State, c: CpuId, x: CallId)
    requires CanDrop(s, c) && x == s.cpus[c].send.phase.call && CpuOk(s, c) && PlaceOk(s, x) && AckOk(s, x)
    requires Continue(s.cpus[c].send).NotSending? && Owes(s.calls[x]) ==> s.calls[x].origin.value.cpu != c
    ensures var s' := DropRef(s, c); PlaceOk(s', x) && AckOk(s', x)
  {
  }

  lemma InvDrop(s: State, c: CpuId)
    requires Inv(s) && CanDrop(s, c)
    ensures Inv(DropRef(s, c))
  {
    var s', x := DropRef(s, c), s.cpus[c].send.phase.call;
    assert CpuOk(s, c);
    assert PlaceOk(s, x) && AckOk(s, x);
    if Continue(s.cpus[c].send).NotSending? {
      NothingOwed(s, c);
    }
    forall y | 0 <= y < |s.calls| && Owes(s.calls[y]) ensures FrameLive(s', s.calls[y].origin.value) {
      assert AckOk(s, y);
    }
    DropCpu(s, c, x);
    DropCall(s, c, x);
    LocalStep(s, s', c, c, x);
    SameCounters(s, s', x);
  }

  lemma RecycleLocal(s: State, c: CpuId, x: CallId)
    requires CanRecycle(s, c) && x == s.cpus[c].send.phase.call && CpuOk(s, c) && PlaceOk(s, x) && AckOk(s, x)
    requires Continue(s.cpus[c].send).NotSending? && Owes(s.calls[x]) ==> s.calls[x].origin.value.cpu != c
    ensures var s' := Recycle(s, c); CpuOk(s', c) && PlaceOk(s', x) && AckOk(s', x)
  {
  }

  lemma RecycleFrames(s: State, c: CpuId)
    requires Inv(s) && CanRecycle(s, c)
    ensures var s' := Recycle(s, c); forall y ::
      0 <= y < |s.calls| && Owes(s.calls[y]) ==> FrameLive(s', s.calls[y].origin.value)
  {
    var s' := Recycle(s, c);
    assert CpuOk(s, c);
    if Continue(s.cpus[c].send).NotSending? {
      NothingOwed(s, c);
    }
    forall y | 0 <= y < |s.calls| && Owes(s.calls[y]) ensures FrameLive(s', s.calls[y].origin.value) {
      assert AckOk(s, y);
    }
  }

  lemma InvRecycle(s: State, c: CpuId)
    requires Inv(s) && CanRecycle(s, c)
    ensures Inv(Recycle(s, c))
  {
    var s', x := Recycle(s, c), s.cpus[c].send.phase.call;
    assert CpuOk(s, c);
    assert PlaceOk(s, x) && AckOk(s, x);
    RecycleFrames(s, c);
    if Continue(s.cpus[c].send).NotSending? {
      NothingOwed(s, c);
    }
    RecycleLocal(s, c, x);
    LocalStep(s, s', c, c, x);
    SameCounters(s, s', x);
  }

  lemma LockLocal(s: State, c: CpuId, x: CallId)
    requires CanLock(s, c) && CpuOk(s, c) && !(s.cpus[c].handler.Entered? && !s.cpus[c].ipiSent)
    requires s.cpus[c].queue != []
    requires x == s.cpus[c].queue[0] && x < |s.calls| && PlaceOk(s, x) && AckOk(s, x)
    ensures var s' := LockQueue(s, c); CpuOk(s', c) && PlaceOk(s', x) && AckOk(s', x)
  {
  }

  lemma InvLock(s: State, c: CpuId)
    requires Inv(s) && CanLock(s, c)
    ensures Inv(LockQueue(s, c))
  {
    var s', u := LockQueue(s, c), s.cpus[c];
    assert CpuOk(s, c);
    if (u.handler.Entered? && !u.ipiSent) || u.queue == [] {
      HandlerOnly(s, s', c);
    } else {
      assert PlaceOk(s, u.queue[0]) && AckOk(s, u.queue[0]);
      FramesStayLive(s, s');
      LockLocal(s, c, u.queue[0]);
      LocalStep(s, s', c, c, u.queue[0]);
      SameCounters(s, s', u.queue[0]);
    }
  }

  lemma InvAcknowledge(s: State, c: CpuId, x: CallId, status: int)
    requires Inv(s) && CanAcknowledge(s, c, x)
    ensures Inv(Acknowledge(s, c, x, status))
  {
    var s' := Acknowledge(s, c, x, status);
    assert CpuOk(s, c);
    assert PlaceOk(s, x) && AckOk(s, x);
    FramesStayLive(s, s');
    LocalStep(s, s', c, c, x);
    SameCounters(s, s', x);
  }

  lemma InvClear(s: State, c: CpuId, x: CallId)
    requires Inv(s) && CanClear(s, c, x)
    ensures Inv(ClearResult(s, c, x))
  {
    var s' := ClearResult(s, c, x);
    assert CpuOk(s, c);
    assert PlaceOk(s, x) && AckOk(s, x);
    FramesStayLive(s, s');
    LocalStep(s, s', c, c, x);
    SameCounters(s, s', x);
  }

  lemma InvReturn(s: State, c: CpuId, x: CallId, ret: int)
    requires Inv(s) && CanReturn(s, c, x)
    ensures Inv(ReturnFrom(s, c, x, ret))
  {
    var s' := ReturnFrom(s, c, x, ret);
    assert CpuOk(s, c);
    assert PlaceOk(s, x) && AckOk(s, x);
    FramesStayLive(s, s');
    LocalStep(s, s', c, c, x);
    SameCounters(s, s', x);
  }

  lemma FinishLocal(s: State, c: CpuId, x: CallId)
    requires CanFinish(s, c, x) && CpuOk(s, c) && PlaceOk(s, x) && AckOk(s, x)
    ensures var s' := Finish(s, c, x); CpuOk(s', c) && PlaceOk(s', x) && AckOk(s', x)
  {
  }

  lemma InvFinish(s: State, c: CpuId, x: CallId)
    requires Inv(s) && CanFinish(s, c, x)
    ensures Inv(Finish(s, c, x))
  {
    var s' := Finish(s, c, x);
    assert CpuOk(s, c) && PlaceOk(s, x) && AckOk(s, x);
    FinishLocal(s, c, x);
    FramesStayLive(s, s');
    LocalStep(s, s', c, c, x);
    SameCounters(s, s', x);
  }

  lemma ReleaseLocal(s: State, c: CpuId, x: CallId)
    requires CanRelease(s, c, x) && CpuOk(s, c) && PlaceOk(s, x) && AckOk(s, x)
    ensures var s' := Release(s, c, x); CpuOk(s', c) && PlaceOk(s', x) && AckOk(s', x)
  {
  }

  lemma InvRelease(s: State, c: CpuId, x: CallId)
    requires Inv(s) && CanRelease(s, c, x)
    ensures Inv(Release(s, c, x))
  {
    var s' := Release(s, c, x);
    assert CpuOk(s, c);
    assert PlaceOk(s, x) && AckOk(s, x);
    FramesStayLive(s, s');
    ReleaseLocal(s, c, x);
    LocalStep(s, s', c, c, x);
    SameCounters(s, s', x);
  }

  lemma HandlerRecycleLocal(s: State, c: CpuId, x: CallId)
    requires CanHandlerRecycle(s, c, x) && CpuOk(s, c) && PlaceOk(s, x) && AckOk(s, x)
    ensures var s' := HandlerRecycle(s, c, x); CpuOk(s', c) && PlaceOk(s', x) && AckOk(s', x)
  {
  }

  lemma InvHandlerRecycle(s: State, c: CpuId, x: CallId)
    requires Inv(s) && CanHandlerRecycle(s, c, x)
    ensures Inv(HandlerRecycle(s, c, x))
  {
    var s' := HandlerRecycle(s, c, x);
    assert CpuOk(s, c);
    assert PlaceOk(s, x) && AckOk(s, x);
    FramesStayLive(s, s');
    HandlerRecycleLocal(s, c, x);
    LocalStep(s, s', c, c, x);
    SameCounters(s, s', x);
  }

  lemma CpuMoves(s: State, s': State, d: CpuId, x: CallId)
    requires d < |s.cpus| == |s'.cpus| && |s'.calls| == |s.calls| && CpuOk(s, d)
    requires forall y ::
      0 <= y < |s.calls| ==> s'.calls[y].place == s.calls[y].place && s'.calls[y].held == s.calls[y].held
    requires s'.cpus[d].queue == s.cpus[d].queue && s'.cpus[d].ipiSent == s.cpus[d].ipiSent
    requires s'.cpus[d].pending == s.cpus[d].pending
    requires s'.cpus[d].handler == s.cpus[d].handler || (s.cpus[d].handler.Handles(x) && s'.cpus[d].handler.Handles(x))
    requires s'.cpus[d].send == s.cpus[d].send ||
      (s.cpus[d].send.Sending? && s.cpus[d].send.acked > 0 &&
        s'.cpus[d].send == s.cpus[d].send.(acked := s.cpus[d].send.acked - 1))
    ensures CpuOk(s', d)
  {
  }

  lemma DecrementCpus(s: State, c: CpuId, x: CallId)
    requires CanDecrement(s, c, x) && FrameLive(s, s.calls[x].result.value)
    requires CpuOk(s, c) && CpuOk(s, s.calls[x].result.value.cpu) && s.cpus[s.calls[x].result.value.cpu].send.acked > 0
    ensures var s', e := DecrementCount(s, c, x), s.calls[x].result.value.cpu; CpuOk(s', c) && CpuOk(s', e)
  {
    CpuMoves(s, DecrementCount(s, c, x), c, x);
    CpuMoves(s, DecrementCount(s, c, x), s.calls[x].result.value.cpu, x);
  }

  lemma DecrementCall(s: State, c: CpuId, x: CallId)
    requires Inv(s) && CanDecrement(s, c, x)
    ensures PlaceOk(DecrementCount(s, c, x), x) && AckOk(DecrementCount(s, c, x), x)
  {
    assert CpuOk(s, c) && PlaceOk(s, x) && AckOk(s, x);
    AcknowledgedIsOwed(s, c, x);
  }

  lemma InvDecrement(s: State, c: CpuId, x: CallId)
    requires Inv(s) && CanDecrement(s, c, x)
    ensures Inv(DecrementCount(s, c, x))
  {
    var s' := DecrementCount(s, c, x);
    AcknowledgedIsOwed(s, c, x);
    assert CpuOk(s, c) && CpuOk(s, s.calls[x].result.value.cpu);
    DecrementCpus(s, c, x);
    DecrementCall(s, c, x);
    FramesStayLive(s, s');
    LocalStep(s, s', c, s.calls[x].result.value.cpu, x);
    DecrementCounters(s, c, x);
  }

  lemma DecrementCounters(s: State, c: CpuId, x: CallId)
    requires Inv(s) && CanDecrement(s, c, x)
    ensures var s' := DecrementCount(s, c, x); forall d :: 0 <= d < |s'.cpus| ==> CounterOk(s', d)
  {
    var s' := DecrementCount(s, c, x);
    AcknowledgedIsOwed(s, c, x);
    forall d | 0 <= d < |s'.cpus| ensures CounterOk(s', d) {
      assert CounterOk(s, d);
      assert Owed(s', d) == if d == s.calls[x].origin.value.cpu then Owed(s, d) - {x} else Owed(s, d);
    }
  }

  // ---------------------------------------------------------------------
  // Every run

  /** All structures are in the pool and nobody is calling. */
  predicate Init(s: State) {
    && |s.calls| == CALLS_PER_CPU * |s.cpus| && !s.dangling
    && |s.pool| == |s.calls| && (forall i :: 0 <= i < |s.pool| ==> s.pool[i] == i)
    && (forall x :: 0 <= x < |s.calls| ==> s.calls[x] == Call(0, None, 0, Pooled, None, None, 0, None))
    && (forall c :: 0 <= c < |s.cpus| ==> s.cpus[c] == Cpu([], false, false, 0, NotSending, NoHandler))
  }

  /** t is a sequence of steps that can be taken one after the other from s. */
  predicate IsRun(s: State, t: seq<Step>)
    decreases |t|
  {
    t == [] || (Enabled(s, t[0]) && IsRun(Apply(s, t[0]), t[1..]))
  }

  function Run(s: State, t: seq<Step>): State
    requires IsRun(s, t)
    decreases |t|
  {
    if t == [] then s else Run(Apply(s, t[0]), t[1..])
  }

  lemma InvInit(s: State)
    requires Init(s)
    ensures Inv(s)
  {
    forall x | 0 <= x < |s.calls| ensures PlaceOk(s, x) && AckOk(s, x) {
      assert s.pool[x] == x;
    }
    forall c | 0 <= c < |s.cpus| ensures CounterOk(s, c) {
      assert Owed(s, c) == {};
    }
  }

  lemma InvStep(s: State, t: Step)
    requires Inv(s) && Enabled(s, t)
    ensures Inv(Apply(s, t))
  {
    match t
    case StartStep(c, single, sync, todo) => InvStart(s, c, single, sync, todo);
    case TakeStep(c) => InvTake(s, c);
    case SpinStep(c) => InvSpin(s, c);
    case SetUpStep(c) => InvSetUp(s, c);
    case PostStep(c) => InvPost(s, c);
    case LeaveStep(c) => InvLeave(s, c);
    case DropStep(c) => InvDrop(s, c);
    case RecycleStep(c) => InvRecycle(s, c);
    case InterruptStep(c) => InvInterrupt(s, c);
    case LockStep(c) => InvLock(s, c);
    case AcknowledgeStep(c, x, status) => InvAcknowledge(s, c, x, status);
    case DecrementStep(c, x) => InvDecrement(s, c, x);
    case ClearStep(c, x) => InvClear(s, c, x);
    case ReturnStep(c, x, ret) => InvReturn(s, c, x, ret);
    case FinishStep(c, x) => InvFinish(s, c, x);
    case ReleaseStep(c, x) => InvRelease(s, c, x);
    case HandlerRecycleStep(c, x) => InvHandlerRecycle(s, c, x);
  }

  lemma {:induction false} InvRun(s: State, t: seq<Step>)
    requires Inv(s) && IsRun(s, t)
    ensures Inv(Run(s, t))
    decreases |t|
  {
    if t != [] {
      InvStep(s, t[0]);
      InvRun(Apply(s, t[0]), t[1..]);
    }
  }
}
