/**
  The timer queue of one CPU and the device that is armed for it.
 */
module Timers {
  import opened Options

  type Id = nat

  type Times = map<Id, int>

  /** Earlier target first; equal targets in the order in which the timers were started. */
  predicate Before(target: Times, started: map<Id, nat>, a: Id, b: Id)
    requires a in target && a in started && b in target && b in started
  {
    target[a] < target[b] || (target[a] == target[b] && started[a] < started[b])
  }

  /** Every timer has a target and a number below n, the number of starts so far. */
  predicate Known(list: seq<Id>, target: Times, started: map<Id, nat>, n: nat) {
    forall i :: 0 <= i < |list| ==> list[i] in target && list[i] in started && started[list[i]] < n
  }

  predicate Sorted(list: seq<Id>, target: Times, started: map<Id, nat>, n: nat)
    requires Known(list, target, started, n)
  {
    forall i, j {:trigger Before(target, started, list[i], list[j])} ::
      0 <= i < j < |list| ==> Before(target, started, list[i], list[j])
  }

  function Insert(list: seq<Id>, pos: nat, id: Id): seq<Id>
    requires pos <= |list|
  {
    list[..pos] + [id] + list[pos..]
  }

  /** The newest timer goes before the first one that expires later. */
  lemma InsertSorted(list: seq<Id>, target: Times, started: map<Id, nat>, n: nat, pos: nat, id: Id, t: int)
    requires Known(list, target, started, n) && Sorted(list, target, started, n) && id !in list && pos <= |list|
    requires forall i :: 0 <= i < pos ==> target[list[i]] <= t
    requires pos < |list| ==> t < target[list[pos]]
    ensures Known(Insert(list, pos, id), target[id := t], started[id := n], n + 1)
    ensures Sorted(Insert(list, pos, id), target[id := t], started[id := n], n + 1)
  {
    var list' := Insert(list, pos, id);
    forall i | 0 <= i < |list'|
      ensures list'[i] in target[id := t] && list'[i] in started[id := n] && started[id := n][list'[i]] < n + 1
    {
      InsertAt(list, pos, id, i);
    }
    forall i, j | 0 <= i < j < |list'| ensures Before(target[id := t], started[id := n], list'[i], list'[j]) {
      InsertAt(list, pos, id, i);
      InsertAt(list, pos, id, j);
      assert i < pos && j < pos ==> Before(target, started, list[i], list[j]);
      assert i < pos < j ==> Before(target, started, list[i], list[j - 1]);
      assert pos < i ==> Before(target, started, list[i - 1], list[j - 1]);
      assert i == pos && pos < j - 1 ==> Before(target, started, list[pos], list[j - 1]);
    }
  }

  lemma InsertAt(list: seq<Id>, pos: nat, id: Id, i: nat)
    requires pos <= |list| && i < |list| + 1
    ensures Insert(list, pos, id)[i] == if i < pos then list[i] else if i == pos then id else list[i - 1]
  {
  }

  lemma Removed(list: seq<Id>, target: Times, started: map<Id, nat>, n: nat, k: nat)
    requires Known(list, target, started, n) && Sorted(list, target, started, n) && k < |list|
    ensures var list' := list[..k] + list[k + 1..];
      Known(list', target, started, n) && Sorted(list', target, started, n) && list[k] !in list'
  {
    var list' := list[..k] + list[k + 1..];
    forall i | 0 <= i < |list'| ensures list'[i] == list[if i < k then i else i + 1] {
    }
    assert forall i :: 0 <= i < |list| && i != k ==> list[i] != list[k] by {
      forall i | 0 <= i < |list| && i != k ensures list[i] != list[k] {
        assert i < k ==> Before(target, started, list[i], list[k]);
        assert k < i ==> Before(target, started, list[k], list[i]);
      }
    }
  }

  lemma RemovedMembers(list: seq<Id>, k: nat, id: Id)
    requires k < |list| && list[k] == id && id !in list[..k] + list[k + 1..]
    ensures forall x :: x in list[..k] + list[k + 1..] <==> x in list && x != id
  {
    assert list == list[..k] + [id] + list[k + 1..];
  }

  /** The number of timers at the front that have expired at the given time. */
  function Expired(list: seq<Id>, target: Times, time: int): (n: nat)
    ensures n <= |list|
  {
    if list == [] || list[0] !in target || time < target[list[0]] then 0 else 1 + Expired(list[1..], target, time)
  }

  /** In a sorted list these are exactly the expired timers. */
  lemma {:induction false} ExpiredOk(list: seq<Id>, target: Times, started: map<Id, nat>, n: nat, time: int)
    requires Known(list, target, started, n) && Sorted(list, target, started, n)
    ensures forall i :: 0 <= i < Expired(list, target, time) ==> target[list[i]] <= time
    ensures forall i :: Expired(list, target, time) <= i < |list| ==> target[list[i]] > time
  {
    if list != [] {
      if time < target[list[0]] {
        forall i | 0 < i < |list| ensures target[list[i]] > time {
          assert Before(target, started, list[0], list[i]);
        }
      } else {
        assert forall i, j :: 0 <= i < j < |list[1..]| ==> list[1..][i] == list[i + 1] && list[1..][j] == list[j + 1];
        ExpiredOk(list[1..], target, started, n, time);
        var m := Expired(list[1..], target, time);
        forall i | 0 <= i < 1 + m ensures target[list[i]] <= time {
          assert i > 0 ==> list[i] == list[1..][i - 1];
        }
        forall i | 1 + m <= i < |list| ensures target[list[i]] > time {
          assert list[i] == list[1..][i - 1];
        }
      }
    }
  }

  /** A timer that expires later than the ones in front comes after them. */
  lemma LaterThan(list: seq<Id>, target: Times, started: map<Id, nat>, n: nat, pos: nat, id: Id, front: seq<Id>,
                  time: int)
    requires pos <= |list| && front <= list && Known(Insert(list, pos, id), target, started, n)
    requires Sorted(Insert(list, pos, id), target, started, n)
    requires id in target && target[id] > time
    requires forall i :: 0 <= i < |front| ==> front[i] in target && target[front[i]] <= time
    ensures pos >= |front|
  {
    var list' := Insert(list, pos, id);
    InsertAt(list, pos, id, pos);
    if pos < |list| {
      InsertAt(list, pos, id, pos + 1);
      assert Before(target, started, list'[pos], list'[pos + 1]);
    }
  }

  /** In the middle of a tick: k of the d expired timers have been handled, and the rest of the list is not due. */
  ghost predicate Round(list: seq<Id>, target: Times, all: seq<Id>, d: nat, k: nat, rest: seq<Id>, time: int,
                        periodic: set<Id>) {
    && k <= d <= |all| && list == all[k..d] + rest
    && (forall x :: x in all[k..d] ==> x in target && target[x] <= time)
    && (forall x :: x in rest ==> x in target && target[x] > time)
    && (forall x :: x in rest <==> x in all[d..] || (x in all[..k] && x in periodic))
  }

  lemma RoundFirst(list: seq<Id>, target: Times, all: seq<Id>, d: nat, k: nat, rest: seq<Id>, time: int,
                   periodic: set<Id>)
    requires Round(list, target, all, d, k, rest, time, periodic)
    ensures k < d ==> list != [] && list[0] == all[k] && all[k] in target && target[all[k]] <= time
    ensures k < d && |list| > 1 ==> if k + 1 < d then list[1] == all[k + 1] else list[1] in rest
    ensures k + 1 < d ==> |list| > 1
  {
  }

  lemma RoundStep(list: seq<Id>, target: Times, target': Times, all: seq<Id>, d: nat, k: nat, rest: seq<Id>,
                  rest': seq<Id>, time: int, periodic: set<Id>)
    requires k < d <= |all| && Round(all[k..d] + rest, target, all, d, k, rest, time, periodic)
    requires list == all[k..d][1..] + rest' && all[k] !in all[k..d][1..]
    requires forall x :: x in target && x != all[k] ==> x in target' && target'[x] == target[x]
    requires forall x :: x in rest' <==> x in rest || (x == all[k] && x in periodic)
    requires all[k] in periodic ==> all[k] in target' && target'[all[k]] > time
    requires all[k] !in rest
    ensures Round(list, target', all, d, k + 1, rest', time, periodic)
  {
  }

  // ---------------------------------------------------------------------
  // What becomes of each start of a timer

  datatype Fate = Waiting(id: Id, target: int) | Fired(id: Id, target: int, time: int) | Cancelled(id: Id, target: int)

  /** A start that waits is in the list with its target; one that has fired did so at its target or later. */
  predicate FateOk(list: seq<Id>, target: Times, started: map<Id, nat>, fate: seq<Fate>, now: int, n: nat)
    requires n < |fate|
  {
    match fate[n]
    case Waiting(id, t) => id in list && id in target && target[id] == t && id in started && started[id] == n
    case Fired(_, t, time) => t <= time <= now
    case Cancelled(_, _) => true
  }

  predicate Waits(started: map<Id, nat>, fate: seq<Fate>, x: Id) {
    x in started && started[x] < |fate| && fate[started[x]].Waiting? && fate[started[x]].id == x
  }

  predicate LogEntry(fate: seq<Fate>, n: nat, id: Id) {
    n < |fate| && fate[n].Fired? && fate[n].id == id
  }

  predicate LogOrder(fate: seq<Fate>, n: nat, m: nat) {
    n != m && (n < |fate| && fate[n].Fired? && m < |fate| && fate[m].Fired? ==> fate[n].time <= fate[m].time)
  }

  predicate InLog(fate: seq<Fate>, log: seq<nat>, n: nat)
    requires n < |fate|
  {
    fate[n].Fired? ==> n in log
  }

  /** The firings in order: each of them once, none left out, and at times that do not decrease. */
  ghost predicate LogOk(fate: seq<Fate>, log: seq<nat>, fired: seq<Id>) {
    && |fired| == |log|
    && (forall i {:trigger LogEntry(fate, log[i], fired[i])} :: 0 <= i < |log| ==> LogEntry(fate, log[i], fired[i]))
    && (forall i, j {:trigger LogOrder(fate, log[i], log[j])} :: 0 <= i < j < |log| ==> LogOrder(fate, log[i], log[j]))
    && (forall n {:trigger InLog(fate, log, n)} :: 0 <= n < |fate| ==> InLog(fate, log, n))
  }

  predicate FiredBy(fate: seq<Fate>, n: nat, time: int) {
    n < |fate| && fate[n].Fired? && fate[n].time <= time
  }

  ghost predicate HistoryOk(list: seq<Id>, target: Times, started: map<Id, nat>, fate: seq<Fate>, log: seq<nat>,
                            fired: seq<Id>, now: int) {
    && (forall n {:trigger FateOk(list, target, started, fate, now, n)} ::
      0 <= n < |fate| ==> FateOk(list, target, started, fate, now, n))
    && (forall x {:trigger Waits(started, fate, x)} :: x in list ==> Waits(started, fate, x))
    && LogOk(fate, log, fired)
  }

  /** A start waits until it is stopped or fires, with the target it was given, and then keeps its fate. */
  ghost predicate Settled(fate: seq<Fate>, fate': seq<Fate>) {
    |fate| <= |fate'| && forall n {:trigger Keeps(fate, fate', n)} :: 0 <= n < |fate| ==> Keeps(fate, fate', n)
  }

  predicate Keeps(fate: seq<Fate>, fate': seq<Fate>, n: nat)
    requires n < |fate| <= |fate'|
  {
    && fate'[n].id == fate[n].id && fate'[n].target == fate[n].target
    && (fate'[n] == fate[n] || (fate[n].Waiting? && !fate'[n].Waiting?))
  }

  lemma SettledStep(f0: seq<Fate>, f1: seq<Fate>, f2: seq<Fate>)
    requires Settled(f0, f1) && Settled(f1, f2)
    ensures Settled(f0, f2)
  {
    forall n | 0 <= n < |f0| ensures Keeps(f0, f2, n) {
      assert Keeps(f0, f1, n) && Keeps(f1, f2, n);
    }
  }

  /** What becomes of a start at a tick. */
  function AfterTick(f: Fate, time: int): Fate {
    if f.Waiting? && f.target <= time then Fired(f.id, f.target, time) else f
  }

  predicate Advances(fate: seq<Fate>, fate': seq<Fate>, time: int, n: nat)
    requires n < |fate| <= |fate'|
  {
    fate'[n] == fate[n] || fate'[n] == AfterTick(fate[n], time)
  }

  /** During a tick: some starts that were due have fired. */
  ghost predicate Advanced(fate: seq<Fate>, fate': seq<Fate>, time: int) {
    && |fate| <= |fate'|
    && forall n {:trigger Advances(fate, fate', time, n)} :: 0 <= n < |fate| ==> Advances(fate, fate', time, n)
  }

  lemma AdvancedStep(f0: seq<Fate>, f1: seq<Fate>, f2: seq<Fate>, time: int)
    requires Advanced(f0, f1, time) && Advanced(f1, f2, time)
    ensures Advanced(f0, f2, time)
  {
    forall n | 0 <= n < |f0| ensures Advances(f0, f2, time, n) {
      assert Advances(f0, f1, time, n) && Advances(f1, f2, time, n);
    }
  }

  lemma AdvancedAppend(fate: seq<Fate>, f: Fate, time: int)
    ensures Advanced(fate, fate + [f], time)
  {
    forall n | 0 <= n < |fate| ensures Advances(fate, fate + [f], time, n) {
    }
  }

  predicate Elapses(fate: seq<Fate>, fate': seq<Fate>, time: int, n: nat)
    requires n < |fate| <= |fate'|
  {
    fate'[n] == AfterTick(fate[n], time)
  }

  /** After a tick: exactly the starts that were due have fired, at its time. */
  ghost predicate Elapsed(fate: seq<Fate>, fate': seq<Fate>, time: int) {
    && |fate| <= |fate'|
    && forall n {:trigger Elapses(fate, fate', time, n)} :: 0 <= n < |fate| ==> Elapses(fate, fate', time, n)
  }

  lemma ElapsedSettled(fate: seq<Fate>, fate': seq<Fate>, time: int)
    requires Elapsed(fate, fate', time)
    ensures Settled(fate, fate')
  {
    forall n | 0 <= n < |fate| ensures Keeps(fate, fate', n) {
      assert Elapses(fate, fate', time, n);
    }
  }

  /** When nothing that is left is due, everything that was has fired. */
  lemma AdvancedElapsed(list: seq<Id>, target: Times, started: map<Id, nat>, fate: seq<Fate>, fate': seq<Fate>,
                        now: int, time: int)
    requires Advanced(fate, fate', time)
    requires forall n {:trigger FateOk(list, target, started, fate', now, n)} ::
      0 <= n < |fate'| ==> FateOk(list, target, started, fate', now, n)
    requires forall x {:trigger LaterTarget(target, time, x)} :: x in list ==> LaterTarget(target, time, x)
    ensures Elapsed(fate, fate', time)
  {
    forall n | 0 <= n < |fate| ensures Elapses(fate, fate', time, n) {
      assert Advances(fate, fate', time, n) && FateOk(list, target, started, fate', now, n);
      if fate'[n].Waiting? {
        assert LaterTarget(target, time, fate'[n].id);
      }
    }
  }

  lemma LaterHistory(list: seq<Id>, target: Times, started: map<Id, nat>, fate: seq<Fate>, log: seq<nat>,
                     fired: seq<Id>, now: int, now': int)
    requires HistoryOk(list, target, started, fate, log, fired, now) && now <= now'
    ensures HistoryOk(list, target, started, fate, log, fired, now')
  {
    forall n | 0 <= n < |fate| ensures FateOk(list, target, started, fate, now', n) {
      assert FateOk(list, target, started, fate, now, n);
    }
  }

  lemma StartedHistory(list: seq<Id>, target: Times, started: map<Id, nat>, fate: seq<Fate>, log: seq<nat>,
                       fired: seq<Id>, now: int,
                       pos: nat, id: Id, t: int)
    requires HistoryOk(list, target, started, fate, log, fired, now) && id !in list && pos <= |list|
    ensures HistoryOk(Insert(list, pos, id), target[id := t], started[id := |fate|], fate + [Waiting(id, t)],
                      log, fired, now)
  {
    var list', target' := Insert(list, pos, id), target[id := t];
    var started', fate' := started[id := |fate|], fate + [Waiting(id, t)];
    assert list'[pos] == id;
    forall x ensures x in list' <==> x in list || x == id {
      InsertMembers(list, pos, id, x);
    }
    forall n | 0 <= n < |fate'| ensures FateOk(list', target', started', fate', now, n) {
      assert n < |fate| ==> FateOk(list, target, started, fate, now, n);
    }
    forall x | x in list' ensures Waits(started', fate', x) {
      assert x in list ==> Waits(started, fate, x);
    }
    StartedLog(fate, log, fired, Waiting(id, t));
  }

  lemma InsertMembers(list: seq<Id>, pos: nat, id: Id, x: Id)
    requires pos <= |list|
    ensures x in Insert(list, pos, id) <==> x in list || x == id
  {
    assert list == list[..pos] + list[pos..];
  }

  /** Timer id leaves the list, because it fires or is stopped. */
  lemma LeftHistory(list: seq<Id>, list': seq<Id>, target: Times, started: map<Id, nat>, fate: seq<Fate>, now: int,
                    id: Id, end: Fate)
    requires id in list && (forall x :: x in list' <==> x in list && x != id)
    requires forall n {:trigger FateOk(list, target, started, fate, now, n)} ::
      0 <= n < |fate| ==> FateOk(list, target, started, fate, now, n)
    requires forall x {:trigger Waits(started, fate, x)} :: x in list ==> Waits(started, fate, x)
    requires end.Cancelled? || (end.Fired? && end.target <= end.time <= now)
    ensures Waits(started, fate, id)
    ensures var fate' := fate[started[id] := end];
      && (forall n {:trigger FateOk(list', target, started, fate', now, n)} ::
        0 <= n < |fate| ==> FateOk(list', target, started, fate', now, n))
      && (forall x {:trigger Waits(started, fate', x)} :: x in list' ==> Waits(started, fate', x))
  {
    assert Waits(started, fate, id);
    var fate' := fate[started[id] := end];
    forall n | 0 <= n < |fate| ensures FateOk(list', target, started, fate', now, n) {
      assert FateOk(list, target, started, fate, now, n);
    }
    forall x | x in list' ensures Waits(started, fate', x) {
      assert Waits(started, fate, x);
      assert FateOk(list, target, started, fate, now, started[x]);
    }
  }

  lemma StartedLog(fate: seq<Fate>, log: seq<nat>, fired: seq<Id>, f: Fate)
    requires LogOk(fate, log, fired) && !f.Fired?
    ensures LogOk(fate + [f], log, fired) && Settled(fate, fate + [f])
  {
    var fate' := fate + [f];
    forall i | 0 <= i < |log| ensures LogEntry(fate', log[i], fired[i]) {
      assert LogEntry(fate, log[i], fired[i]);
    }
    forall i, j | 0 <= i < j < |log| ensures LogOrder(fate', log[i], log[j]) {
      assert LogOrder(fate, log[i], log[j]) && LogEntry(fate, log[i], fired[i]) && LogEntry(fate, log[j], fired[j]);
    }
    forall n | 0 <= n < |fate'| ensures InLog(fate', log, n) {
      assert n < |fate| ==> InLog(fate, log, n);
    }
  }

  /** The start was stopped. */
  function Stopped(f: Fate): Fate {
    Cancelled(f.id, f.target)
  }

  lemma CancelledLog(fate: seq<Fate>, log: seq<nat>, fired: seq<Id>, n: nat)
    requires LogOk(fate, log, fired) && n < |fate| && fate[n].Waiting?
    ensures LogOk(fate[n := Stopped(fate[n])], log, fired) && Settled(fate, fate[n := Stopped(fate[n])])
  {
    var fate' := fate[n := Stopped(fate[n])];
    forall i | 0 <= i < |log| ensures LogEntry(fate', log[i], fired[i]) {
      assert LogEntry(fate, log[i], fired[i]);
    }
    forall i, j | 0 <= i < j < |log| ensures LogOrder(fate', log[i], log[j]) {
      assert LogOrder(fate, log[i], log[j]);
    }
    forall m | 0 <= m < |fate| ensures InLog(fate', log, m) {
      assert InLog(fate, log, m);
    }
  }

  lemma FiredLog(fate: seq<Fate>, log: seq<nat>, fired: seq<Id>, n: nat, id: Id, t: int, time: int)
    requires LogOk(fate, log, fired) && n < |fate| && fate[n] == Waiting(id, t) && t <= time
    requires forall i {:trigger FiredBy(fate, log[i], time)} :: 0 <= i < |log| ==> FiredBy(fate, log[i], time)
    ensures var fate', log' := fate[n := Fired(id, t, time)], log + [n];
      && LogOk(fate', log', fired + [id]) && Advanced(fate, fate', time)
      && forall i {:trigger FiredBy(fate', log'[i], time)} :: 0 <= i < |log'| ==> FiredBy(fate', log'[i], time)
  {
    var fate', log', fired' := fate[n := Fired(id, t, time)], log + [n], fired + [id];
    forall i | 0 <= i < |log'| ensures LogEntry(fate', log'[i], fired'[i]) && FiredBy(fate', log'[i], time) {
      assert i < |log| ==> LogEntry(fate, log[i], fired[i]) && FiredBy(fate, log[i], time);
    }
    forall i, j | 0 <= i < j < |log'| ensures LogOrder(fate', log'[i], log'[j]) {
      assert FiredBy(fate, log[i], time) && LogEntry(fate, log[i], fired[i]);
      assert j < |log| ==> LogOrder(fate, log[i], log[j]);
    }
    forall m | 0 <= m < |fate| ensures InLog(fate', log', m) && Advances(fate, fate', time, m) {
      assert InLog(fate, log, m);
      assert log'[|log|] == n;
    }
  }

  /** The timers that are started again, in order. */
  function Restarts(due: seq<Id>, periodic: set<Id>): seq<Id> {
    if due == [] then [] else
    var k := |due| - 1;
    Restarts(due[..k], periodic) + if due[k] in periodic then [due[k]] else []
  }

  predicate NewStart(from: nat, fate: seq<Fate>, target: Times, ids: seq<Id>, k: nat)
    requires k < |ids|
  {
    from + k < |fate| && ids[k] in target && fate[from + k] == Waiting(ids[k], target[ids[k]])
  }

  /** The starts after those in f0 are of the given timers, and wait. */
  ghost predicate NewStarts(f0: seq<Fate>, fate: seq<Fate>, target: Times, ids: seq<Id>) {
    && |fate| == |f0| + |ids|
    && forall k {:trigger NewStart(|f0|, fate, target, ids, k)} ::
         0 <= k < |ids| ==> NewStart(|f0|, fate, target, ids, k)
  }

  predicate NoRepeat(list: seq<Id>) {
    forall i, j :: 0 <= i < j < |list| ==> list[i] != list[j]
  }

  lemma SortedNoRepeat(list: seq<Id>, target: Times, started: map<Id, nat>, n: nat)
    requires Known(list, target, started, n) && Sorted(list, target, started, n)
    ensures NoRepeat(list)
  {
    forall i, j | 0 <= i < j < |list| ensures list[i] != list[j] {
      assert Before(target, started, list[i], list[j]);
    }
  }

  lemma {:induction false} RestartsMembers(due: seq<Id>, periodic: set<Id>, x: Id)
    ensures x in Restarts(due, periodic) <==> x in due && x in periodic
  {
    if due != [] {
      var k := |due| - 1;
      RestartsMembers(due[..k], periodic, x);
      assert due == due[..k] + [due[k]];
    }
  }

  /** Start n of timer id has fired, and the timer was started again if it is periodic. */
  predicate Refired(fate: seq<Fate>, fate': seq<Fate>, target': Times, id: Id, periodic: set<Id>, n: nat, end: Fate) {
    && n < |fate| && fate[n].id == id
    && if id in periodic then id in target' && fate' == fate[n := end] + [Waiting(id, target'[id])]
       else fate' == fate[n := end]
  }

  /** The same in the round of a tick. */
  lemma NewStartsStep(f0: seq<Fate>, fate: seq<Fate>, fate': seq<Fate>, target: Times, target': Times,
                      all: seq<Id>, k: nat, periodic: set<Id>, n: nat, end: Fate)
    requires k < |all| && NoRepeat(all) && NewStarts(f0, fate, target, Restarts(all[..k], periodic))
    requires Refired(fate, fate', target', all[k], periodic, n, end)
    requires forall x :: x in target && x != all[k] ==> x in target' && target'[x] == target[x]
    ensures NewStarts(f0, fate', target', Restarts(all[..k + 1], periodic))
  {
    assert all[..k + 1][..k] == all[..k];
    var ids, ids' := Restarts(all[..k], periodic), Restarts(all[..k + 1], periodic);
    forall i | 0 <= i < |ids'| ensures NewStart(|f0|, fate', target', ids', i) {
      if i < |ids| {
        assert NewStart(|f0|, fate, target, ids, i);
        RestartsMembers(all[..k], periodic, ids[i]);
      }
    }
  }

  /** Targets after k of the d expired timers: the others are as before, a restarted one has its restart time
      plus its period. */
  ghost predicate Retimed(target: Times, t0: Times, all: seq<Id>, d: nat, k: nat, time: int, now: int, initial: Times,
                          periodic: set<Id>) {
    && k <= d <= |all|
    && (forall x :: x in all[d..] ==> x in t0 && x in target && target[x] == t0[x])
    && (forall x :: x in all[..k] && x in periodic ==>
          x in target && x in initial && time + initial[x] <= target[x] <= now + initial[x])
  }

  lemma RetimedStep(target: Times, target': Times, t0: Times, all: seq<Id>, d: nat, k: nat, rest: seq<Id>, time: int,
                    now: int, now': int,
                    initial: Times, periodic: set<Id>)
    requires Retimed(target, t0, all, d, k, time, now, initial, periodic) && k < d && time <= now <= now'
    requires forall x :: x in all[d..] || (x in all[..k] && x in periodic) ==> x in rest
    requires all[k] !in rest && forall x :: x in target && x != all[k] ==> x in target' && target'[x] == target[x]
    requires all[k] in periodic ==>
      all[k] in initial && all[k] in target' && now + initial[all[k]] <= target'[all[k]] <= now' + initial[all[k]]
    ensures Retimed(target', t0, all, d, k + 1, time, now', initial, periodic)
  {
    assert all[..k + 1] == all[..k] + [all[k]];
  }

  predicate HasPeriod(initial: Times, x: Id) {
    x in initial && initial[x] > 0
  }

  predicate LaterTarget(target: Times, time: int, x: Id) {
    x in target && target[x] > time
  }

  lemma RoundStart(list: seq<Id>, target: Times, started: map<Id, nat>, n: nat, time: int, now: int, initial: Times,
                   periodic: set<Id>)
    requires Known(list, target, started, n) && Sorted(list, target, started, n)
    ensures var d := Expired(list, target, time);
      && Round(list, target, list, d, 0, list[d..], time, periodic)
      && Retimed(target, target, list, d, 0, time, now, initial, periodic)
  {
    ExpiredOk(list, target, started, n, time);
  }

  /** When the loop has ended, everything that had expired has been handled. */
  lemma RoundOver(list: seq<Id>, target: Times, all: seq<Id>, t0: Times, d: nat, rest: seq<Id>, time: int, now: int,
                  initial: Times, periodic: set<Id>)
    requires d == Expired(all, t0, time) && Round(list, target, all, d, d, rest, time, periodic)
    requires Retimed(target, t0, all, d, d, time, now, initial, periodic)
    ensures Ticked(all, t0, list, target, time, now, initial, periodic)
  {
    assert list == rest;
  }

  /** The timers that are due. */
  function Due(list: seq<Id>, target: Times, time: int): seq<Id> {
    list[..Expired(list, target, time)]
  }

  /**
    What a tick at the given time makes of a list: the timers that were not due
    are left with their targets, and the periodic ones that were have new ones,
    one period after their restart.  All targets are later than the tick.
   */
  ghost predicate Ticked(l0: seq<Id>, t0: Times, list: seq<Id>, target: Times, time: int, now: int, initial: Times,
                         periodic: set<Id>) {
    var due := Expired(l0, t0, time);
    && (forall x {:trigger LaterTarget(target, time, x)} :: x in list ==> LaterTarget(target, time, x))
    && (forall x :: x in list <==> x in l0[due..] || (x in l0[..due] && x in periodic))
    && Retimed(target, t0, l0, due, due, time, now, initial, periodic)
  }

  lemma TickedLater(l0: seq<Id>, t0: Times, list: seq<Id>, target: Times, time: int, now: int, now': int,
                    initial: Times, periodic: set<Id>)
    requires Ticked(l0, t0, list, target, time, now, initial, periodic) && now <= now'
    ensures Ticked(l0, t0, list, target, time, now', initial, periodic)
  {
  }

  lemma TickedNothing(fate: seq<Fate>, target: Times, time: int, now: int, initial: Times, periodic: set<Id>)
    ensures Due([], target, time) == [] && Ticked([], target, [], target, time, now, initial, periodic)
    ensures NewStarts(fate, fate, target, Restarts([], periodic))
  {
  }

  /** The device is set at the given time for timer x, or for 1 ns later if that is overdue. */
  predicate SetFor(armed: Option<int>, at: int, target: Times, x: Id) {
    x in target && armed == Some(if target[x] > at then target[x] else at + 1)
  }

  function Mode(periodic: set<Id>, id: Id, again: bool): set<Id> {
    if again then periodic + {id} else periodic - {id}
  }

  /** The queue at one moment. */
  datatype Moment = Moment(list: seq<Id>, target: Times, started: map<Id, nat>, fate: seq<Fate>, log: seq<nat>,
                           fired: seq<Id>, initial: Times, periodic: set<Id>, ticked: int, now: int)

  /** The list with one more timer. */
  predicate Joins(list: seq<Id>, list': seq<Id>, id: Id) {
    exists pos :: 0 <= pos <= |list| && list' == Insert(list, pos, id)
  }

  /** The list without one timer. */
  predicate Leaves(list: seq<Id>, list': seq<Id>, id: Id) {
    id !in list' && exists k :: 0 <= k < |list| && list[k] == id && list' == list[..k] + list[k + 1..]
  }

  /** Start n has fired in time and is logged, waits with a target after the last tick, or was stopped. */
  predicate FateInTime(v: Moment, n: nat)
    requires n < |v.fate|
  {
    match v.fate[n]
    case Fired(_, t, time) => t <= time <= v.now && n in v.log
    case Waiting(id, t) => id in v.list && t > v.ticked
    case Cancelled(_, _) => n !in v.log
  }

  /** What timer_start does. */
  ghost predicate Starts(v: Moment, v': Moment, id: Id, length: int, again: bool) {
    if length <= 0 then v' == v else
    && v.now <= v'.now && Joins(v.list, v'.list, id)
    && id in v'.target && v.now + length <= v'.target[id] <= v'.now + length
    && v' == v.(list := v'.list, now := v'.now, target := v.target[id := v'.target[id]],
                initial := v.initial[id := length], periodic := Mode(v.periodic, id, again),
                fate := v.fate + [Waiting(id, v'.target[id])], started := v.started[id := |v.fate|])
  }

  /** What timer_stop does. */
  ghost predicate Stops(v: Moment, v': Moment, id: Id) {
    if id !in v.list then v' == v else
    && v.now <= v'.now && Leaves(v.list, v'.list, id) && Waits(v.started, v.fate, id)
    && v' == v.(list := v'.list, now := v'.now, fate := v.fate[v.started[id] := Stopped(v.fate[v.started[id]])])
  }

  /** What timer_tick does. */
  ghost predicate Ticks(v: Moment, v': Moment) {
    var time := v'.ticked;
    && v.now <= time <= v'.now && Elapsed(v.fate, v'.fate, time) && v.log <= v'.log
    && v'.fired == v.fired + Due(v.list, v.target, time) && v'.initial == v.initial && v'.periodic == v.periodic
    && Ticked(v.list, v.target, v'.list, v'.target, time, v'.now, v.initial, v.periodic)
    && NewStarts(v.fate, v'.fate, v'.target, Restarts(Due(v.list, v.target, time), v.periodic))
  }

  class Queue {
    var list: seq<Id>
    var target: Times
    ghost var started: map<Id, nat>  // the number of the start of each timer
    ghost var fate: seq<Fate>        // what became of each start
    ghost var log: seq<nat>          // the starts that have fired, in order
    ghost var ticked: int            // the time of the last tick
    var initial: map<Id, int>
    var periodic: set<Id>
    var now: int                     // the clock
    var fired: seq<Id>               // the timers whose function or DPC has been called
    const oneShot: bool
    var enabled: bool
    var armed: Option<int>           // when the one-shot device ticks
    ghost var armedAt: int
    const thread: set<Id>            // TIMER_THREAD
    const wants: set<Id>             // timers whose function asks for preemption

    /** One of the timers has a function, not run as a DPC, that asks for preemption. */
    predicate Asked(s: seq<Id>) {
      s != [] && (Asked(s[..|s| - 1]) || (s[|s| - 1] !in thread && s[|s| - 1] in wants))
    }

    ghost function View(): Moment
      reads this
    {
      Moment(list, target, started, fate, log, fired, initial, periodic, ticked, now)
    }

    ghost predicate QueueOk()
      reads this
    {
      && Known(list, target, started, |fate|) && Sorted(list, target, started, |fate|)
      && (forall x {:trigger HasPeriod(initial, x)} :: x in list ==> HasPeriod(initial, x))
      && HistoryOk(list, target, started, fate, log, fired, now)
    }

    /** Whatever was due at the last tick has fired. */
    ghost predicate NothingDue()
      reads this
    {
      ticked <= now && forall x {:trigger LaterTarget(target, ticked, x)} ::
        x in list ==> LaterTarget(target, ticked, x)
    }

    /** A one-shot device is not armed too late; a periodic one is on. */
    ghost predicate DeviceOk()
      reads this
      requires Known(list, target, started, |fate|)
    {
      if oneShot then
        enabled && (list != [] ==>
          && armed.Some? && armedAt <= now
          && (armed.value <= target[list[0]] || (armed.value == armedAt + 1 && target[list[0]] <= armedAt)))
      else
        list != [] ==> enabled
    }

    ghost predicate Valid()
      reads this
    {
      QueueOk() && DeviceOk() && NothingDue()
    }

    /** The device does no more than it has to: it is set for the first timer, or off if there is none. */
    ghost predicate DeviceExact()
      reads this
    {
      if oneShot then list != [] ==> SetFor(armed, armedAt, target, list[0]) else enabled <==> list != []
    }

    /** After timer_device_set: nothing is running. */
    constructor (oneShot: bool, now: int, thread: set<Id>, wants: set<Id>)
      ensures Valid() && list == [] && fired == [] && fate == []
    {
      this.oneShot, this.now, this.thread, this.wants := oneShot, now, thread, wants;
      list, fired, target, started, initial, periodic := [], [], map[], map[], map[], {};
      fate, log, ticked := [], [], now;
      enabled, armed, armedAt := oneShot, None, now;
    }

    /** system_time: the clock does not go back. */
    method SystemTime() returns (t: int)
      modifies `now
      ensures t == now >= old(now)
    {
      var passed: int := *;
      if passed > 0 {
        now := now + passed;
      }
      t := now;
    }

    /** timer_start_unsafe. */
    method StartUnsafe(id: Id) returns (ghost pos: nat)
      requires QueueOk() && id !in list && id in initial && initial[id] > 0
      modifies `list, `target, `started, `fate, `now
      ensures QueueOk() && now >= old(now) && target == old(target)[id := now + initial[id]]
      ensures pos <= |old(list)| && list == Insert(old(list), pos, id)
      ensures fate == old(fate) + [Waiting(id, now + initial[id])] && started == old(started)[id := |old(fate)|]
    {
      var time := SystemTime();
      var t := time + initial[id];
      var at := 0;
      while at < |list|
        invariant 0 <= at <= |list|
        invariant forall i :: 0 <= i < at ==> target[list[i]] <= t
      {
        if target[list[at]] > t {
          break;
        }
        at := at + 1;
      }
      pos := at;
      InsertSorted(list, target, started, |fate|, pos, id, t);
      LaterHistory(list, target, started, fate, log, fired, old(now), now);
      StartedHistory(list, target, started, fate, log, fired, now, pos, id, t);
      StartedLog(fate, log, fired, Waiting(id, t));
      target, started, fate := target[id := t], started[id := |fate|], fate + [Waiting(id, t)];
      list := Insert(list, at, id);
      forall x | x in list ensures HasPeriod(initial, x) {
        InsertMembers(old(list), pos, id, x);
        assert x in old(list) ==> HasPeriod(initial, x);
      }
    }

    /** timer_device_prepare for the first timer. */
    method Prepare()
      requires QueueOk() && NothingDue() && list != [] && oneShot && enabled
      modifies `now, `armed, `armedAt
      ensures Valid() && now >= old(now) && armedAt == now && SetFor(armed, now, target, list[0])
    {
      var time := SystemTime();
      LaterHistory(list, target, started, fate, log, fired, old(now), now);
      var length := target[list[0]] - time;
      armed := Some(time + if length > 0 then length else 1);
      armedAt := time;
    }

    /** timer_start. */
    method Start(id: Id, length: int, again: bool) returns (ghost pos: nat)
      requires Valid() && id !in list
      modifies `list, `target, `started, `fate, `now, `initial, `periodic, `armed, `armedAt, `enabled
      ensures Valid() && Starts(old(View()), View(), id, length, again)
      ensures old(DeviceExact()) ==> DeviceExact()
    {
      pos := 0;
      if length <= 0 {
        return;
      }
      pos := Enqueue(id, length, again);
      InsertAt(old(list), pos, id, 0);
      assert list == Insert(old(list), pos, id);
      Rearm(id);
    }

    /** The first part of timer_start: length and mode are noted, and the timer is added to the list. */
    method Enqueue(id: Id, length: int, again: bool) returns (ghost pos: nat)
      requires QueueOk() && NothingDue() && id !in list && length > 0
      modifies `list, `target, `started, `fate, `now, `initial, `periodic
      ensures QueueOk() && NothingDue() && now >= old(now) && target == old(target)[id := now + length]
      ensures pos <= |old(list)| && list == Insert(old(list), pos, id)
      ensures initial == old(initial)[id := length] && periodic == Mode(old(periodic), id, again)
      ensures fate == old(fate) + [Waiting(id, now + length)] && started == old(started)[id := |old(fate)|]
    {
      periodic := Mode(periodic, id, again);
      initial := initial[id := length];
      forall x | x in list ensures HasPeriod(initial, x) {
        assert HasPeriod(old(initial), x);
      }
      pos := StartUnsafe(id);
      forall x | x in list ensures LaterTarget(target, ticked, x) {
        InsertMembers(old(list), pos, id, x);
        assert x in old(list) ==> LaterTarget(old(target), ticked, x);
      }
    }

    /** The end of timer_start: a one-shot device is armed for a new first timer, a periodic one switched on. */
    method Rearm(id: Id)
      requires QueueOk() && NothingDue() && list != [] && (oneShot && list[0] != id ==> DeviceOk())
      requires oneShot ==> enabled
      modifies `now, `armed, `armedAt, `enabled
      ensures Valid() && now >= old(now)
      ensures oneShot && list[0] != id ==> armed == old(armed) && armedAt == old(armedAt)
      ensures !oneShot || list[0] == id ==> DeviceExact()
    {
      if oneShot {
        if list[0] == id {
          Prepare();
        }
      } else {
        enabled := true;
      }
    }

    /** list_remove. */
    method Remove(id: Id) returns (ghost k: nat)
      requires QueueOk() && id in list
      modifies `list, `fate
      ensures QueueOk() && k < |old(list)| && old(list)[k] == id && list == old(list)[..k] + old(list)[k + 1..]
      ensures id !in list
      ensures Waits(started, old(fate), id) && Settled(old(fate), fate)
      ensures fate == old(fate)[started[id] := Stopped(old(fate)[started[id]])]
    {
      var i := 0;
      while list[i] != id
        invariant 0 <= i < |list| && id !in list[..i]
        decreases |list| - i
      {
        i := i + 1;
      }
      k := i;
      Removed(list, target, started, |fate|, i);
      RemovedMembers(list, i, id);
      assert Waits(started, fate, id);
      ghost var end := Stopped(fate[started[id]]);
      LeftHistory(list, list[..i] + list[i + 1..], target, started, fate, now, id, end);
      CancelledLog(fate, log, fired, started[id]);
      list := list[..i] + list[i + 1..];
      fate := fate[started[id] := end];
    }

    /** timer_stop; here tells whether the timer is on the CPU that stops it. */
    method Stop(id: Id, here: bool) returns (ghost k: nat)
      requires Valid()
      modifies `list, `fate, `now, `armed, `armedAt, `enabled
      ensures Valid() && Stops(old(View()), View(), id)
      ensures if here then old(DeviceExact()) ==> DeviceExact()
              else armed == old(armed) && armedAt == old(armedAt) && enabled == old(enabled)
    {
      k := 0;
      if id !in list {
        return;
      }
      var first := list[0];
      k := Dequeue(id);
      if here {
        Unarm(first == id);
      }
    }

    /** The first part of timer_stop: the timer is removed, which makes no device late. */
    method Dequeue(id: Id) returns (ghost k: nat)
      requires Valid() && id in list
      modifies `list, `fate
      ensures Valid() && Stops(old(View()), View(), id)
      ensures old(list[0]) != id ==> list != [] && list[0] == old(list[0])
    {
      assert |list| > 1 ==> Before(target, started, list[0], list[1]);
      k := Remove(id);
    }

    /** The end of timer_stop: the device for the timers that are left. */
    method Unarm(wasFirst: bool)
      requires Valid()
      modifies `now, `armed, `armedAt, `enabled
      ensures Valid() && now >= old(now)
      ensures oneShot && !wasFirst ==> armed == old(armed) && armedAt == old(armedAt)
      ensures !oneShot || wasFirst ==> DeviceExact()
    {
      if oneShot {
        if wasFirst && list != [] {
          Prepare();
        }
      } else if list == [] {
        enabled := false;
      }
    }

    /** No firing so far was later than the given time. */
    ghost predicate LoggedBy(time: int)
      reads this
    {
      forall i {:trigger FiredBy(fate, log[i], time)} :: 0 <= i < |log| ==> FiredBy(fate, log[i], time)
    }

    /** Removes the first timer, which has expired, calls its function and restarts it if it is periodic. */
    method FireFirst(time: int, ghost front: seq<Id>, ghost rest: seq<Id>) returns (ghost rest': seq<Id>)
      requires QueueOk() && LoggedBy(time) && time <= now && front != [] && list == front + rest
      requires forall x :: x in front ==> x in target && target[x] <= time
      modifies `list, `target, `started, `fate, `log, `now, `fired
      ensures QueueOk() && LoggedBy(time) && Advanced(old(fate), fate, time) && old(log) <= log && old(now) <= now
      ensures list == front[1..] + rest' && fired == old(fired) + [front[0]] && front[0] !in front[1..]
      ensures front[0] !in rest
      ensures forall x :: x in old(target) && x != front[0] ==> x in target && target[x] == old(target)[x]
      ensures forall x :: x in rest' <==> x in rest || (x == front[0] && x in periodic)
      ensures exists n: nat, end: Fate :: Refired(old(fate), fate, target, front[0], periodic, n, end)
      ensures front[0] in periodic ==>
        front[0] in initial && front[0] in target &&
          time < old(now) + initial[front[0]] <= target[front[0]] <= now + initial[front[0]]
    {
      var id := TakeFirst(time);
      assert id == front[0] && list == front[1..] + rest;
      rest' := rest;
      ghost var between, n, end := fate, started[id], Fired(id, target[id], time);
      if id in periodic {
        rest' := Restart(id, time, front[1..], rest);
        AdvancedStep(old(fate), between, fate, time);
      }
      assert Refired(old(fate), fate, target, id, periodic, n, end);
    }

    /** The first timer leaves the list and fires. */
    method TakeFirst(time: int) returns (id: Id)
      requires QueueOk() && LoggedBy(time) && time <= now && list != [] && list[0] in target && target[list[0]] <= time
      modifies `list, `fate, `log, `fired
      ensures QueueOk() && LoggedBy(time) && Advanced(old(fate), fate, time) && old(log) <= log
      ensures id == old(list)[0] && list == old(list)[1..] && id !in list && fired == old(fired) + [id]
      ensures Waits(started, old(fate), id) && fate == old(fate)[started[id] := Fired(id, target[id], time)]
      ensures id in initial && initial[id] > 0
    {
      id := list[0];
      assert HasPeriod(initial, id);
      Removed(list, target, started, |fate|, 0);
      assert list[..0] + list[1..] == list[1..];
      RemovedMembers(list, 0, id);
      ghost var n, end := started[id], Fired(id, target[id], time);
      assert Waits(started, fate, id) && FateOk(list, target, started, fate, now, n);
      LeftHistory(list, list[1..], target, started, fate, now, id, end);
      FiredLog(fate, log, fired, n, id, target[id], time);
      list := list[1..];
      fired := fired + [id];
      fate, log := fate[n := end], log + [n];
      forall x | x in list ensures HasPeriod(initial, x) {
      }
    }

    /** A periodic timer is inserted behind all that have expired. */
    method Restart(id: Id, time: int, ghost front: seq<Id>, ghost rest: seq<Id>) returns (ghost rest': seq<Id>)
      requires QueueOk() && LoggedBy(time) && time <= now && list == front + rest && id !in list && id in initial
      requires initial[id] > 0
      requires forall x :: x in front ==> x in target && target[x] <= time
      modifies `list, `target, `started, `fate, `now
      ensures QueueOk() && LoggedBy(time) && Advanced(old(fate), fate, time) && old(now) <= now && list == front + rest'
      ensures id in target && fate == old(fate) + [Waiting(id, target[id])]
      ensures target == old(target)[id := now + initial[id]]
      ensures forall x :: x in rest' <==> x in rest || x == id
    {
      ghost var pos := StartUnsafe(id);
      AdvancedAppend(old(fate), Waiting(id, target[id]), time);
      forall i | 0 <= i < |log| ensures FiredBy(fate, log[i], time) {
        assert FiredBy(old(fate), log[i], time);
      }
      LaterThan(front + rest, target, started, |fate|, pos, id, front, time);
      rest' := Insert(rest, pos - |front|, id);
      assert list == front + rest';
    }

    /** The loop of timer_tick; the next timer is looked up before the current one is handled. */
    method FireAll(time: int) returns (preempt: bool)
      requires QueueOk() && LoggedBy(time) && time <= now
      modifies `list, `target, `started, `fate, `log, `now, `fired
      ensures QueueOk() && Advanced(old(fate), fate, time) && old(log) <= log && old(now) <= now
      ensures fired == old(fired) + Due(old(list), old(target), time)
      ensures preempt <==> Asked(Due(old(list), old(target), time))
      ensures Ticked(old(list), old(target), list, target, time, now, initial, periodic)
      ensures NewStarts(old(fate), fate, target, Restarts(Due(old(list), old(target), time), periodic))
    {
      SortedNoRepeat(list, target, started, |fate|);
      ghost var all, d, t0, f0, l0 := list, Expired(list, target, time), target, fate, log;
      RoundStart(list, target, started, |fate|, time, now, initial, periodic);
      preempt := false;
      ghost var k, rest := 0, list[d..];
      var iter := if list == [] then None else Some(list[0]);
      while iter.Some?
        invariant QueueOk() && LoggedBy(time) && Advanced(f0, fate, time) && l0 <= log && old(now) <= now
        invariant Round(list, target, all, d, k, rest, time, periodic) && fired == old(fired) + all[..k]
        invariant Retimed(target, t0, all, d, k, time, now, initial, periodic)
        invariant NewStarts(f0, fate, target, Restarts(all[..k], periodic))
        invariant preempt <==> Asked(all[..k])
        invariant if k < d then iter == Some(all[k]) else iter.Some? ==> iter.value in rest
        decreases d - k
      {
        RoundFirst(list, target, all, d, k, rest, time, periodic);
        var timer := iter.value;
        if time < target[timer] {
          break;
        }
        iter := if |list| > 1 then Some(list[1]) else None;
        rest := FireNext(time, all, d, k, rest, t0, f0, l0, old(fired));
        preempt := preempt || (timer !in thread && timer in wants);
        k := k + 1;
      }
      RoundOver(list, target, all, t0, d, rest, time, now, initial, periodic);
    }

    /** One expired timer of the round. */
    method FireNext(time: int, ghost all: seq<Id>, ghost d: nat, ghost k: nat, ghost rest: seq<Id>,
                    ghost t0: Times, ghost f0: seq<Fate>, ghost l0: seq<nat>, ghost before: seq<Id>)
      returns (ghost rest': seq<Id>)
      requires QueueOk() && LoggedBy(time) && Advanced(f0, fate, time) && l0 <= log && time <= now && k < d <= |all|
      requires Round(list, target, all, d, k, rest, time, periodic)
      requires Retimed(target, t0, all, d, k, time, now, initial, periodic)
      requires fired == before + all[..k]
      requires NoRepeat(all) && NewStarts(f0, fate, target, Restarts(all[..k], periodic))
      modifies `list, `target, `started, `fate, `log, `now, `fired
      ensures QueueOk() && LoggedBy(time) && Advanced(f0, fate, time) && l0 <= log && old(now) <= now
      ensures Round(list, target, all, d, k + 1, rest', time, periodic)
      ensures Retimed(target, t0, all, d, k + 1, time, now, initial, periodic)
      ensures fired == before + all[..k + 1] && NewStarts(f0, fate, target, Restarts(all[..k + 1], periodic))
      ensures Asked(all[..k + 1]) == (Asked(all[..k]) || (all[k] !in thread && all[k] in wants))
      ensures forall x :: x in rest ==> x in rest'
    {
      rest' := FireFirst(time, all[k..d], rest);
      AdvancedStep(f0, old(fate), fate, time);
      ghost var n: nat, end :| Refired(old(fate), fate, target, all[k], periodic, n, end);
      NewStartsStep(f0, old(fate), fate, old(target), target, all, k, periodic, n, end);
      RoundStep(list, old(target), target, all, d, k, rest, rest', time, periodic);
      RetimedStep(old(target), target, t0, all, d, k, rest, time, old(now), now, initial, periodic);
      assert all[..k + 1][..k] == all[..k] && all[..k + 1] == all[..k] + [all[k]];
    }

    /** timer_tick. */
    method Tick() returns (preempt: bool, ghost time: int)
      requires Valid()
      modifies `list, `target, `started, `fate, `log, `ticked, `now, `armed, `armedAt, `enabled, `fired
      ensures Valid() && Elapsed(old(fate), fate, time) && old(log) <= log && old(now) <= time <= now && ticked == time
      ensures fired == old(fired) + Due(old(list), old(target), time)
      ensures preempt <==> Asked(Due(old(list), old(target), time))
      ensures Ticked(old(list), old(target), list, target, time, now, initial, periodic)
      ensures NewStarts(old(fate), fate, target, Restarts(Due(old(list), old(target), time), periodic))
      ensures DeviceExact()
    {
      var t := Sample();
      time := t;
      preempt := false;
      if !enabled {
        ticked := t;
        TickedNothing(fate, target, t, now, initial, periodic);
        AdvancedElapsed(list, target, started, fate, fate, now, t);
        return;
      }
      preempt := TickEnabled(t);
    }

    /** timer_tick at time t while the device is enabled. */
    method TickEnabled(t: int) returns (preempt: bool)
      requires QueueOk() && LoggedBy(t) && t <= now && enabled
      modifies `list, `target, `started, `fate, `log, `ticked, `now, `armed, `armedAt, `enabled, `fired
      ensures Valid() && Elapsed(old(fate), fate, t) && old(log) <= log && old(now) <= now && ticked == t
      ensures fired == old(fired) + Due(old(list), old(target), t)
      ensures preempt <==> Asked(Due(old(list), old(target), t))
      ensures Ticked(old(list), old(target), list, target, t, now, initial, periodic)
      ensures NewStarts(old(fate), fate, target, Restarts(Due(old(list), old(target), t), periodic))
      ensures DeviceExact()
    {
      preempt := FireAll(t);
      ticked := t;
      ghost var before := now;
      AfterTick();
      TickedLater(old(list), old(target), list, target, t, before, now, initial, periodic);
      AdvancedElapsed(list, target, started, old(fate), fate, now, t);
    }

    /** The time of the tick: no firing so far was later. */
    method Sample() returns (t: int)
      requires QueueOk()
      modifies `now
      ensures QueueOk() && LoggedBy(t) && t == now >= old(now)
    {
      t := SystemTime();
      LaterHistory(list, target, started, fate, log, fired, old(now), now);
      LogIsPast(t);
    }

    /** The end of timer_tick: the device for the timers that are left. */
    method AfterTick()
      requires QueueOk() && NothingDue() && enabled
      modifies `now, `armed, `armedAt, `enabled
      ensures Valid() && now >= old(now) && DeviceExact()
    {
      if oneShot {
        if list != [] {
          Prepare();
        }
      } else if list == [] {
        enabled := false;
      }
    }

    /** Every start is waiting with a target after the last tick, has fired in time and is logged, or was stopped. */
    lemma Fates()
      requires Valid()
      ensures forall n :: 0 <= n < |fate| ==> FateInTime(View(), n)
      ensures forall i, j :: 0 <= i < j < |log| ==> log[i] != log[j]
    {
      forall n | 0 <= n < |fate| ensures FateInTime(View(), n) {
        assert FateOk(list, target, started, fate, now, n) && InLog(fate, log, n);
        if fate[n].Waiting? {
          assert LaterTarget(target, ticked, fate[n].id);
        }
        forall i | 0 <= i < |log| ensures fate[n].Cancelled? ==> log[i] != n {
          assert LogEntry(fate, log[i], fired[i]);
        }
      }
      forall i, j | 0 <= i < j < |log| ensures log[i] != log[j] {
        assert LogOrder(fate, log[i], log[j]);
      }
    }

    lemma LogIsPast(time: int)
      requires QueueOk() && now <= time
      ensures LoggedBy(time)
    {
      forall i | 0 <= i < |log| ensures FiredBy(fate, log[i], time) {
        assert LogEntry(fate, log[i], fired[i]) && FateOk(list, target, started, fate, now, log[i]);
      }
    }
  }

  datatype Op = OpStart(id: Id, length: int, again: bool) | OpStop(id: Id, here: bool) | OpTick

  /** One operation; a timer that runs already is not started. */
  ghost predicate Does(v: Moment, op: Op, v': Moment) {
    match op
    case OpStart(id, length, again) => if id in v.list then v' == v else Starts(v, v', id, length, again)
    case OpStop(id, _) => Stops(v, v', id)
    case OpTick => Ticks(v, v')
  }

  method Step(q: Queue, op: Op)
    requires q.Valid()
    modifies q
    ensures q.Valid() && Does(old(q.View()), op, q.View())
  {
    match op {
      case OpStart(id, length, again) =>
        if id !in q.list {
          ghost var pos := q.Start(id, length, again);
        }
      case OpStop(id, here) =>
        ghost var k := q.Stop(id, here);
      case OpTick =>
        var preempt;
        ghost var time;
        preempt, time := q.Tick();
    }
  }

  lemma DoesSettled(v: Moment, op: Op, v': Moment)
    requires Does(v, op, v')
    ensures Settled(v.fate, v'.fate) && v.now <= v'.now && v.log <= v'.log
  {
    if op.OpTick? {
      ElapsedSettled(v.fate, v'.fate, v'.ticked);
    } else {
      forall n | 0 <= n < |v.fate| ensures Keeps(v.fate, v'.fate, n) {
      }
    }
  }

  /** Each moment follows from the one before by one operation. */
  ghost predicate IsRun(views: seq<Moment>, ops: seq<Op>) {
    |views| == |ops| + 1 && forall i :: 0 <= i < |ops| ==> Does(views[i], ops[i], views[i + 1])
  }

  /** No start ever changes its target or its fate. */
  lemma {:induction false} RunSettled(views: seq<Moment>, ops: seq<Op>, i: nat, j: nat)
    requires IsRun(views, ops) && i <= j < |views|
    ensures Settled(views[i].fate, views[j].fate) && views[i].now <= views[j].now && views[i].log <= views[j].log
    decreases j
  {
    if i < j {
      RunSettled(views, ops, i, j - 1);
      DoesSettled(views[j - 1], ops[j - 1], views[j]);
      SettledStep(views[i].fate, views[j - 1].fate, views[j].fate);
    } else {
      forall n | 0 <= n < |views[i].fate| ensures Keeps(views[i].fate, views[i].fate, n) {
      }
    }
  }

  /**
    Every start in a run gets the next number and a target of its length from
    then on; from there on it waits, has been stopped, or has fired, not before
    that target.
   */
  lemma StartsFireInTime(views: seq<Moment>, ops: seq<Op>, i: nat, j: nat)
    requires IsRun(views, ops) && i < j < |views|
    requires ops[i].OpStart? && ops[i].length > 0 && ops[i].id !in views[i].list
    requires Fit(views[j])
    ensures var n := |views[i].fate|;
      n < |views[j].fate| && match views[j].fate[n]
        case Fired(id, t, time) =>
          id == ops[i].id && views[i].now + ops[i].length <= t <= time <= views[j].now && n in views[j].log
        case Waiting(id, t) => id == ops[i].id && id in views[j].list && t > views[j].ticked
        case Cancelled(id, _) => id == ops[i].id && n !in views[j].log
  {
    RunSettled(views, ops, i + 1, j);
    var n := |views[i].fate|;
    assert Starts(views[i], views[i + 1], ops[i].id, ops[i].length, ops[i].again);
    assert Keeps(views[i + 1].fate, views[j].fate, n) && FateInTime(views[j], n);
  }

  // ---------------------------------------------------------------------
  // How often a timer fires

  /** The queue is in order, and its history is right. */
  ghost predicate Fit(v: Moment) {
    && Known(v.list, v.target, v.started, |v.fate|) && Sorted(v.list, v.target, v.started, |v.fate|)
    && forall n :: 0 <= n < |v.fate| ==> FateInTime(v, n)
  }

  /** The number of starts of a timer. */
  function StartsOf(fate: seq<Fate>, id: Id): nat {
    if fate == [] then 0 else
    var k := |fate| - 1;
    StartsOf(fate[..k], id) + if fate[k].id == id then 1 else 0
  }

  function Firings(v: Moment, id: Id): nat {
    multiset(v.fired)[id]
  }

  /** Only the timers of the starts matter. */
  lemma {:induction false} SameStarts(fate: seq<Fate>, fate': seq<Fate>, id: Id)
    requires |fate| == |fate'| && forall n :: 0 <= n < |fate| ==> fate[n].id == fate'[n].id
    ensures StartsOf(fate, id) == StartsOf(fate', id)
  {
    if fate != [] {
      SameStarts(fate[..|fate| - 1], fate'[..|fate| - 1], id);
    }
  }

  /** Starts after the first n are those of the given timers. */
  lemma {:induction false} MoreStarts(fate: seq<Fate>, n: nat, ids: seq<Id>, id: Id)
    requires |fate| == n + |ids| && forall k :: 0 <= k < |ids| ==> fate[n + k].id == ids[k]
    ensures StartsOf(fate, id) == StartsOf(fate[..n], id) + multiset(ids)[id]
    decreases |ids|
  {
    if ids == [] {
      assert fate[..n] == fate;
    } else {
      var k := |ids| - 1;
      MoreStarts(fate[..n + k], n, ids[..k], id);
      assert fate[..n + k][..n] == fate[..n] && ids == ids[..k] + [ids[k]];
    }
  }

  lemma {:induction false} OnceInMultiset(list: seq<Id>, id: Id)
    requires NoRepeat(list)
    ensures multiset(list)[id] == if id in list then 1 else 0
  {
    if list != [] {
      var k := |list| - 1;
      OnceInMultiset(list[..k], id);
      assert list == list[..k] + [list[k]];
    }
  }

  lemma {:induction false} RestartedOnce(due: seq<Id>, periodic: set<Id>, id: Id)
    requires NoRepeat(due)
    ensures multiset(Restarts(due, periodic))[id] == if id in due && id in periodic then 1 else 0
  {
    if due != [] {
      var k := |due| - 1;
      RestartedOnce(due[..k], periodic, id);
      assert due == due[..k] + [due[k]];
    }
  }

  /** What a tick adds to the starts of a timer. */
  lemma TickStarts(v: Moment, v': Moment, due: seq<Id>, id: Id)
    requires Elapsed(v.fate, v'.fate, v'.ticked) && NoRepeat(due)
    requires NewStarts(v.fate, v'.fate, v'.target, Restarts(due, v.periodic))
    ensures StartsOf(v'.fate, id) == StartsOf(v.fate, id) + (if id in due && id in v.periodic then 1 else 0)
  {
    var ids := Restarts(due, v.periodic);
    RestartedOnce(due, v.periodic, id);
    forall k | 0 <= k < |ids| ensures v'.fate[|v.fate| + k].id == ids[k] {
      assert NewStart(|v.fate|, v'.fate, v'.target, ids, k);
    }
    MoreStarts(v'.fate, |v.fate|, ids, id);
    forall n | 0 <= n < |v.fate| ensures v.fate[n].id == v'.fate[..|v.fate|][n].id {
      assert Elapses(v.fate, v'.fate, v'.ticked, n);
    }
    SameStarts(v.fate, v'.fate[..|v.fate|], id);
  }

  /** A tick at which the timer is due adds one firing, and one start if the timer is periodic. */
  lemma TickCounts(v: Moment, v': Moment, id: Id)
    requires Ticks(v, v') && Fit(v)
    ensures var due := id in Due(v.list, v.target, v'.ticked);
      && Firings(v', id) == Firings(v, id) + (if due then 1 else 0)
      && StartsOf(v'.fate, id) == StartsOf(v.fate, id) + (if due && id in v.periodic then 1 else 0)
  {
    var due := Due(v.list, v.target, v'.ticked);
    SortedNoRepeat(v.list, v.target, v.started, |v.fate|);
    OnceInMultiset(due, id);
    assert multiset(v.fired + due) == multiset(v.fired) + multiset(due);
    TickStarts(v, v', due, id);
  }

  /** Whether a timer stays in the list at a tick. */
  lemma TickLeaves(v: Moment, v': Moment, id: Id)
    requires Ticks(v, v') && Fit(v)
    ensures id in v'.list <==> id in v.list && (id in Due(v.list, v.target, v'.ticked) ==> id in v.periodic)
  {
    var d := Expired(v.list, v.target, v'.ticked);
    SortedNoRepeat(v.list, v.target, v.started, |v.fate|);
    assert v.list == v.list[..d] + v.list[d..];
    assert id in v.list[..d] ==> id !in v.list[d..];
  }

  /** The operation starts or stops the timer. */
  predicate Concerns(op: Op, id: Id) {
    (op.OpStart? || op.OpStop?) && op.id == id
  }

  /** Starting or stopping another timer changes nothing for this one. */
  lemma OtherTimer(v: Moment, op: Op, v': Moment, id: Id)
    requires Does(v, op, v') && !op.OpTick? && !Concerns(op, id)
    ensures id in v'.list <==> id in v.list
    ensures id in v'.periodic <==> id in v.periodic
    ensures StartsOf(v'.fate, id) == StartsOf(v.fate, id) && Firings(v', id) == Firings(v, id)
  {
    if v' != v {
      if op.OpStart? {
        var pos :| 0 <= pos <= |v.list| && v'.list == Insert(v.list, pos, op.id);
        InsertMembers(v.list, pos, op.id, id);
        assert v'.fate[..|v.fate|] == v.fate;
      } else {
        var k :| 0 <= k < |v.list| && v.list[k] == op.id && v'.list == v.list[..k] + v.list[k + 1..];
        assert v.list == v.list[..k] + [op.id] + v.list[k + 1..];
        SameStarts(v.fate, v'.fate, id);
      }
    }
  }

  lemma OwnStart(v: Moment, v': Moment, id: Id, length: int, again: bool)
    requires Starts(v, v', id, length, again) && length > 0
    ensures id in v'.list && (id in v'.periodic <==> again)
    ensures StartsOf(v'.fate, id) == StartsOf(v.fate, id) + 1 && Firings(v', id) == Firings(v, id)
  {
    var pos :| 0 <= pos <= |v.list| && v'.list == Insert(v.list, pos, id);
    InsertMembers(v.list, pos, id, id);
    assert v'.fate[..|v.fate|] == v.fate;
  }

  /**
    A timer that is started at moment i, and neither started nor stopped again
    before moment j.  A periodic one is still in the list, and has been started
    once more for each time it has fired.  Any other has this one start, and is
    in the list exactly if it has not fired, which it does at most once.
   */
  lemma {:induction false} Lifetime(views: seq<Moment>, ops: seq<Op>, i: nat, j: nat)
    requires IsRun(views, ops) && i < j < |views| && forall k :: 0 <= k < |views| ==> Fit(views[k])
    requires ops[i].OpStart? && ops[i].length > 0 && ops[i].id !in views[i].list
    requires forall k :: i < k < j ==> !Concerns(ops[k], ops[i].id)
    ensures var id, fired := ops[i].id, Firings(views[j], ops[i].id) - Firings(views[i], ops[i].id);
      && (ops[i].again ==>
            id in views[j].list && StartsOf(views[j].fate, id) == StartsOf(views[i].fate, id) + 1 + fired)
      && (!ops[i].again ==>
            && StartsOf(views[j].fate, id) == StartsOf(views[i].fate, id) + 1 && 0 <= fired <= 1
            && (id in views[j].list <==> fired == 0))
      && (id in views[j].periodic <==> ops[i].again)
    decreases j
  {
    var id := ops[i].id;
    if j == i + 1 {
      OwnStart(views[i], views[j], id, ops[i].length, ops[i].again);
    } else {
      Lifetime(views, ops, i, j - 1);
      var v, op, v' := views[j - 1], ops[j - 1], views[j];
      assert Does(v, op, v') && Fit(v);
      if op.OpTick? {
        TickCounts(v, v', id);
        TickLeaves(v, v', id);
      } else {
        OtherTimer(v, op, v', id);
      }
    }
  }

  /**
    Every run keeps the queue in order and the device armed in time.  Each start
    fires at most once and not before its target; one that is neither fired nor
    stopped waits in the list, with a target after the last tick.
   */
  method Run(q: Queue, ops: seq<Op>) returns (ghost views: seq<Moment>)
    requires q.Valid()
    modifies q
    ensures q.Valid() && IsRun(views, ops) && views[0] == old(q.View()) && views[|ops|] == q.View()
    ensures forall j :: 0 <= j <= |ops| ==> Fit(views[j])
    ensures forall i, j :: 0 <= i < j < |q.log| ==> q.log[i] != q.log[j]
  {
    views := [q.View()];
    q.Fates();
    for i := 0 to |ops|
      invariant q.Valid() && IsRun(views, ops[..i]) && views[0] == old(q.View()) && views[i] == q.View()
      invariant forall j :: 0 <= j <= i ==> Fit(views[j])
      invariant forall i, j :: 0 <= i < j < |q.log| ==> q.log[i] != q.log[j]
    {
      Step(q, ops[i]);
      q.Fates();
      views := views + [q.View()];
      assert ops[..i + 1] == ops[..i] + [ops[i]];
    }
    assert ops[..|ops|] == ops;
  }
}
