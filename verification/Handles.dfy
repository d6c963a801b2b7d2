/**
  Handle tables of processes and the reference counts of the handles in them.
 */
module Handles {
  import opened Options

  type Hid = nat

  datatype Status =
    | Success | InvalidHandle | InvalidArg | InvalidAddr | NoHandles
    | AlreadyExists | NotSupported | InvalidEvent | UserFault

  const TABLE_SIZE := 512   // HANDLE_TABLE_SIZE

  type Slots = seq<Option<Hid>>

  /** A thread has at most one callback for each event of a slot. */
  datatype Key = Key(thread: nat, event: int)

  type Callbacks = seq<set<Key>>

  /** A handle table, with the callbacks of each slot. */
  datatype Table = Table(handles: Slots, flags: seq<nat>, bitmap: seq<bool>, callbacks: Callbacks)

  /** HANDLE_INHERITABLE is bit 0. */
  predicate Inheritable(flags: nat) {
    flags % 2 == 1
  }

  lemma InheritableIsBit0(k: nat)
    ensures Inheritable(2 * k + 1) && !Inheritable(2 * k)
  {
  }

  function EmptyTable(): Table {
    Table(seq(TABLE_SIZE, _ => None), seq(TABLE_SIZE, _ => 0), seq(TABLE_SIZE, _ => false), seq(TABLE_SIZE, _ => {}))
  }

  predicate IsSlot(id: int) {
    0 <= id < TABLE_SIZE
  }

  predicate Shape(t: Table) {
    |t.handles| == TABLE_SIZE && |t.flags| == TABLE_SIZE && |t.bitmap| == TABLE_SIZE && |t.callbacks| == TABLE_SIZE
  }

  /** The type of the handle has the flag OBJECT_TRANSFERRABLE. */
  predicate Transferrable(kinds: map<Hid, bool>, h: Hid) {
    h in kinds && kinds[h]
  }

  /** The bitmap tells which slots are occupied, and nothing else refers to an empty one. */
  predicate SlotOk(t: Table, kinds: map<Hid, bool>, i: nat)
    requires Shape(t) && i < TABLE_SIZE
  {
    && (t.bitmap[i] <==> t.handles[i].Some?)
    && (t.handles[i].Some? ==> t.handles[i].value in kinds)
    && (Inheritable(t.flags[i]) ==> t.handles[i].Some? && Transferrable(kinds, t.handles[i].value))
    && (t.handles[i].None? ==> t.flags[i] == 0 && t.callbacks[i] == {})
  }

  ghost predicate TableOk(t: Table, kinds: map<Hid, bool>) {
    Shape(t) && forall i {:trigger SlotOk(t, kinds, i)} :: 0 <= i < TABLE_SIZE ==> SlotOk(t, kinds, i)
  }

  predicate NoCallbacks(t: Table)
    requires Shape(t)
  {
    forall i :: 0 <= i < TABLE_SIZE ==> t.callbacks[i] == {}
  }

  /** Every callback is of the given thread: the other threads have ended. */
  predicate OnlyThread(t: Table, thread: nat)
    requires Shape(t)
  {
    forall i, k :: 0 <= i < TABLE_SIZE && k in t.callbacks[i] ==> k.thread == thread
  }

  lemma BitmapIsOccupancy(t: Table, kinds: map<Hid, bool>)
    requires TableOk(t, kinds)
    ensures forall i :: 0 <= i < TABLE_SIZE ==> (t.bitmap[i] <==> t.handles[i].Some?)
  {
    forall i | 0 <= i < TABLE_SIZE ensures t.bitmap[i] <==> t.handles[i].Some? {
      assert SlotOk(t, kinds, i);
    }
  }

  /** Every slot is occupied. */
  predicate Full(t: Table)
    requires Shape(t)
  {
    forall i :: 0 <= i < TABLE_SIZE ==> t.handles[i].Some?
  }

  predicate FirstFree(t: Table, id: nat)
    requires Shape(t)
  {
    id < TABLE_SIZE && t.handles[id].None? && forall i :: 0 <= i < id ==> t.handles[i].Some?
  }

  /** Number of slots that hold h. */
  function Holding(hs: Slots, h: Hid): nat {
    if hs == [] then 0 else
    Holding(hs[..|hs| - 1], h) + if hs[|hs| - 1] == Some(h) then 1 else 0
  }

  function Total(procs: seq<Table>, h: Hid): nat {
    if procs == [] then 0 else
    Total(procs[..|procs| - 1], h) + Holding(procs[|procs| - 1].handles, h)
  }

  function Is(v: Option<Hid>, h: Hid): int {
    if v == Some(h) then 1 else 0
  }

  lemma {:induction false} HoldingUpdate(hs: Slots, i: nat, v: Option<Hid>, h: Hid)
    requires i < |hs|
    ensures Holding(hs[i := v], h) == Holding(hs, h) - Is(hs[i], h) + Is(v, h)
  {
    var n := |hs| - 1;
    if i < n {
      assert hs[i := v][..n] == hs[..n][i := v];
      HoldingUpdate(hs[..n], i, v, h);
    } else {
      assert hs[i := v][..n] == hs[..n];
    }
  }

  lemma {:induction false} TotalUpdate(procs: seq<Table>, p: nat, t: Table, h: Hid)
    requires p < |procs|
    ensures Total(procs[p := t], h) == Total(procs, h) - Holding(procs[p].handles, h) + Holding(t.handles, h)
  {
    var n := |procs| - 1;
    if p < n {
      assert procs[p := t][..n] == procs[..n][p := t];
      TotalUpdate(procs[..n], p, t, h);
    } else {
      assert procs[p := t][..n] == procs[..n];
    }
  }

  lemma {:induction false} HoldingOne(hs: Slots, i: nat, h: Hid)
    requires i < |hs| && hs[i] == Some(h)
    ensures Holding(hs, h) > 0
  {
    if i < |hs| - 1 {
      HoldingOne(hs[..|hs| - 1], i, h);
    }
  }

  lemma {:induction false} TotalOne(procs: seq<Table>, p: nat, h: Hid)
    requires p < |procs|
    ensures Total(procs, h) >= Holding(procs[p].handles, h)
  {
    if p < |procs| - 1 {
      TotalOne(procs[..|procs| - 1], p, h);
    }
  }

  lemma {:induction false} HoldingNone(hs: Slots, h: Hid)
    requires forall i :: 0 <= i < |hs| ==> hs[i] != Some(h)
    ensures Holding(hs, h) == 0
  {
    if hs != [] {
      HoldingNone(hs[..|hs| - 1], h);
    }
  }

  /** Number of callbacks in slots that hold h. */
  function LiveIn(hs: Slots, cs: Callbacks, h: Hid): nat
    requires |hs| == |cs|
  {
    if hs == [] then 0 else
    var n := |hs| - 1;
    LiveIn(hs[..n], cs[..n], h) + At(hs[n], cs[n], h)
  }

  /** The callbacks of one slot, if it holds h. */
  function At(v: Option<Hid>, c: set<Key>, h: Hid): nat {
    if v == Some(h) then |c| else 0
  }

  function Live(procs: seq<Table>, h: Hid): nat
    requires forall p :: 0 <= p < |procs| ==> Shape(procs[p])
  {
    if procs == [] then 0 else
    var n := |procs| - 1;
    assert Shape(procs[n]);
    Live(procs[..n], h) + LiveIn(procs[n].handles, procs[n].callbacks, h)
  }

  lemma {:induction false} LiveInUpdate(hs: Slots, cs: Callbacks, i: nat, v: Option<Hid>, c: set<Key>, h: Hid)
    requires |hs| == |cs| && i < |hs|
    ensures LiveIn(hs[i := v], cs[i := c], h) == LiveIn(hs, cs, h) - At(hs[i], cs[i], h) + At(v, c, h)
  {
    var n := |hs| - 1;
    if i < n {
      assert hs[i := v][..n] == hs[..n][i := v] && cs[i := c][..n] == cs[..n][i := c];
      LiveInUpdate(hs[..n], cs[..n], i, v, c, h);
    } else {
      assert hs[i := v][..n] == hs[..n] && cs[i := c][..n] == cs[..n];
    }
  }

  lemma {:induction false} LiveInNone(hs: Slots, cs: Callbacks, h: Hid)
    requires |hs| == |cs| && forall i :: 0 <= i < |hs| ==> cs[i] == {}
    ensures LiveIn(hs, cs, h) == 0
  {
    if hs != [] {
      LiveInNone(hs[..|hs| - 1], cs[..|hs| - 1], h);
    }
  }

  lemma {:induction false} LiveUpdate(procs: seq<Table>, p: nat, t: Table, h: Hid)
    requires p < |procs| && (forall q :: 0 <= q < |procs| ==> Shape(procs[q])) && Shape(t)
    ensures Live(procs[p := t], h) ==
            Live(procs, h) - LiveIn(procs[p].handles, procs[p].callbacks, h) + LiveIn(t.handles, t.callbacks, h)
  {
    var n := |procs| - 1;
    if p < n {
      assert procs[p := t][..n] == procs[..n][p := t];
      LiveUpdate(procs[..n], p, t, h);
    } else {
      assert procs[p := t][..n] == procs[..n];
    }
  }

  /** Every callback that has been registered is live or has been removed. */
  ghost predicate Accounted(procs: seq<Table>, registered: Counts, removed: Counts)
    requires forall p :: 0 <= p < |procs| ==> Shape(procs[p])
  {
    forall h: Hid {:trigger Live(procs, h)} :: Live(procs, h) + Count(removed, h) == Count(registered, h)
  }

  /** The callbacks of slot i change, and maybe its handle. */
  lemma AccountedSlot(procs: seq<Table>, p: nat, t: Table, i: nat, v: Option<Hid>, c: set<Key>,
                      registered: Counts, removed: Counts, registered': Counts, removed': Counts)
    requires p < |procs| && (forall q :: 0 <= q < |procs| ==> Shape(procs[q])) && Shape(t) && i < TABLE_SIZE
    requires Accounted(procs, registered, removed)
    requires t.handles == procs[p].handles[i := v] && t.callbacks == procs[p].callbacks[i := c]
    requires forall h: Hid ::
      Count(registered', h) - Count(removed', h) ==
      Count(registered, h) - Count(removed, h) - At(procs[p].handles[i], procs[p].callbacks[i], h) + At(v, c, h)
    ensures Accounted(procs[p := t], registered', removed')
  {
    forall h: Hid ensures Live(procs[p := t], h) + Count(removed', h) == Count(registered', h) {
      assert Live(procs, h) + Count(removed, h) == Count(registered, h);
      LiveUpdate(procs, p, t, h);
      LiveInUpdate(procs[p].handles, procs[p].callbacks, i, v, c, h);
    }
  }

  /** A slot without callbacks gets another handle, or other fields of the table change. */
  lemma AccountedQuiet(procs: seq<Table>, p: nat, t: Table, i: nat, v: Option<Hid>, registered: Counts, removed: Counts)
    requires p < |procs| && (forall q :: 0 <= q < |procs| ==> Shape(procs[q])) && Shape(t) && i < TABLE_SIZE
    requires Accounted(procs, registered, removed)
    requires t.handles == procs[p].handles[i := v] && t.callbacks == procs[p].callbacks
    requires procs[p].callbacks[i] == {} || v == procs[p].handles[i]
    ensures Accounted(procs[p := t], registered, removed)
  {
    assert t.callbacks == t.callbacks[i := t.callbacks[i]];
    AccountedSlot(procs, p, t, i, v, t.callbacks[i], registered, removed, registered, removed);
  }

  /** Two tables without callbacks. */
  lemma AccountedTable(procs: seq<Table>, p: nat, t: Table, registered: Counts, removed: Counts)
    requires p < |procs| && (forall q :: 0 <= q < |procs| ==> Shape(procs[q])) && Shape(t)
    requires Accounted(procs, registered, removed) && NoCallbacks(procs[p]) && NoCallbacks(t)
    ensures Accounted(procs[p := t], registered, removed)
  {
    forall h: Hid ensures Live(procs[p := t], h) + Count(removed, h) == Count(registered, h) {
      LiveUpdate(procs, p, t, h);
      LiveInNone(procs[p].handles, procs[p].callbacks, h);
      LiveInNone(t.handles, t.callbacks, h);
    }
  }

  // ---------------------------------------------------------------------
  // Counts

  type Counts = map<Hid, nat>

  function Count(c: Counts, h: Hid): nat {
    if h in c then c[h] else 0
  }

  function Plus(c: Counts, h: Hid, n: nat): Counts {
    c[h := Count(c, h) + n]
  }

  function Increment(c: Counts, h: Hid): Counts {
    Plus(c, h, 1)
  }

  /** Retaining a handle that has been freed does not bring it back. */
  function Retained(c: Counts, h: Hid): Counts {
    if h in c then Increment(c, h) else c
  }

  /** The last reference frees the handle. */
  function Decrement(c: Counts, h: Hid): Counts {
    if Count(c, h) <= 1 then c - {h} else c[h := c[h] - 1]
  }

  /** The reference of a slot is given up. */
  function Released(c: Counts, v: Option<Hid>): Counts {
    if v.Some? then Decrement(c, v.value) else c
  }

  ghost predicate NoZeroes(c: Counts) {
    forall h :: h in c ==> c[h] > 0
  }

  type Balance = map<(nat, Hid), int>

  function Net(b: Balance, p: nat, h: Hid): int {
    if (p, h) in b then b[(p, h)] else 0
  }

  function Add(b: Balance, p: nat, h: Hid, d: int): Balance {
    b[(p, h) := Net(b, p, h) + d]
  }

  ghost predicate TablesOk(procs: seq<Table>, kinds: map<Hid, bool>) {
    (forall p :: 0 <= p < |procs| ==> Shape(procs[p])) && forall p :: 0 <= p < |procs| ==> TableOk(procs[p], kinds)
  }

  /** For each process and handle, attach calls minus detach calls are the slots that hold it. */
  ghost predicate Balanced(procs: seq<Table>, balance: Balance) {
    forall p: nat, h: Hid {:trigger Net(balance, p, h)} ::
      p < |procs| ==> Net(balance, p, h) == Holding(procs[p].handles, h)
  }

  /** Every reference is a slot, a callback that has been registered, or held elsewhere. */
  ghost predicate Counted(procs: seq<Table>, count: Counts, others: Counts, registered: Counts) {
    forall h: Hid {:trigger Count(count, h)} ::
      Count(count, h) == Total(procs, h) + Count(others, h) + Count(registered, h)
  }

  /** Slot id gets handle h. */
  function Put(t: Table, id: nat, h: Hid, flags: nat): Table
    requires Shape(t) && id < TABLE_SIZE
  {
    t.(handles := t.handles[id := Some(h)], flags := t.flags[id := flags], bitmap := t.bitmap[id := true])
  }

  function Clear(t: Table, id: nat): Table
    requires Shape(t) && id < TABLE_SIZE
  {
    Table(t.handles[id := None], t.flags[id := 0], t.bitmap[id := false], t.callbacks[id := {}])
  }

  lemma PutOk(t: Table, kinds: map<Hid, bool>, id: nat, h: Hid, flags: nat)
    requires TableOk(t, kinds) && id < TABLE_SIZE && h in kinds && (Inheritable(flags) ==> Transferrable(kinds, h))
    ensures TableOk(Put(t, id, h, flags), kinds)
  {
    forall i | 0 <= i < TABLE_SIZE ensures SlotOk(Put(t, id, h, flags), kinds, i) {
      assert SlotOk(t, kinds, i);
    }
  }

  lemma MoreKinds(t: Table, kinds: map<Hid, bool>, kinds': map<Hid, bool>)
    requires TableOk(t, kinds) && forall h :: h in kinds ==> h in kinds' && kinds'[h] == kinds[h]
    ensures TableOk(t, kinds')
  {
    forall i | 0 <= i < TABLE_SIZE ensures SlotOk(t, kinds', i) {
      assert SlotOk(t, kinds, i);
    }
  }

  lemma ClearOk(t: Table, kinds: map<Hid, bool>, id: nat)
    requires TableOk(t, kinds) && id < TABLE_SIZE
    ensures TableOk(Clear(t, id), kinds)
  {
    forall i | 0 <= i < TABLE_SIZE ensures SlotOk(Clear(t, id), kinds, i) {
      assert SlotOk(t, kinds, i);
    }
  }

  /** One slot changes, and so do the calls and the references for its old and new handle. */
  lemma BalancedSlot(procs: seq<Table>, balance: Balance, p: nat, t: Table, i: nat, v: Option<Hid>, balance': Balance)
    requires Balanced(procs, balance) && p < |procs| && i < |procs[p].handles|
    requires t.handles == procs[p].handles[i := v]
    requires forall q: nat, h: Hid ::
      Net(balance', q, h) == Net(balance, q, h) + if q == p then Is(v, h) - Is(procs[p].handles[i], h) else 0
    ensures Balanced(procs[p := t], balance')
  {
    forall q: nat, h: Hid | q < |procs| ensures Net(balance', q, h) == Holding(procs[p := t][q].handles, h) {
      assert Net(balance, q, h) == Holding(procs[q].handles, h);
      HoldingUpdate(procs[p].handles, i, v, h);
    }
  }

  lemma CountedSlot(procs: seq<Table>, count: Counts, others: Counts, registered: Counts,
                    p: nat, t: Table, i: nat, v: Option<Hid>, count': Counts, others': Counts)
    requires Counted(procs, count, others, registered) && p < |procs| && i < |procs[p].handles|
    requires t.handles == procs[p].handles[i := v]
    requires forall h: Hid ::
      Count(count', h) - Count(others', h) == Count(count, h) - Count(others, h) + Is(v, h) - Is(procs[p].handles[i], h)
    ensures Counted(procs[p := t], count', others', registered)
  {
    forall h: Hid ensures Count(count', h) == Total(procs[p := t], h) + Count(others', h) + Count(registered, h) {
      assert Count(count, h) == Total(procs, h) + Count(others, h) + Count(registered, h);
      TotalUpdate(procs, p, t, h);
      HoldingUpdate(procs[p].handles, i, v, h);
    }
  }

  lemma Reflagged(t: Table, kinds: map<Hid, bool>, id: nat, flags: nat)
    requires TableOk(t, kinds) && id < TABLE_SIZE && t.handles[id].Some?
    requires Inheritable(flags) ==> Transferrable(kinds, t.handles[id].value)
    ensures TableOk(t.(flags := t.flags[id := flags]), kinds)
  {
    var t' := t.(flags := t.flags[id := flags]);
    forall i | 0 <= i < TABLE_SIZE ensures SlotOk(t', kinds, i) {
      assert SlotOk(t, kinds, i);
    }
  }

  /** Changes other than to slots do not matter for the counts. */
  lemma {:induction false} SameTotal(procs: seq<Table>, procs': seq<Table>, h: Hid)
    requires |procs| == |procs'| && forall p :: 0 <= p < |procs| ==> procs[p].handles == procs'[p].handles
    ensures Total(procs, h) == Total(procs', h)
  {
    if procs != [] {
      SameTotal(procs[..|procs| - 1], procs'[..|procs| - 1], h);
    }
  }

  lemma SameSlots(procs: seq<Table>, procs': seq<Table>, balance: Balance,
                  count: Counts, others: Counts, registered: Counts)
    requires Balanced(procs, balance) && Counted(procs, count, others, registered)
    requires |procs| == |procs'| && forall p :: 0 <= p < |procs| ==> procs[p].handles == procs'[p].handles
    ensures Balanced(procs', balance) && Counted(procs', count, others, registered)
  {
    forall h: Hid ensures Count(count, h) == Total(procs', h) + Count(others, h) + Count(registered, h) {
      SameTotal(procs, procs', h);
    }
  }

  /** Callbacks of an occupied slot change. */
  lemma Recalled(t: Table, kinds: map<Hid, bool>, id: nat, c: set<Key>)
    requires TableOk(t, kinds) && id < TABLE_SIZE && t.handles[id].Some?
    ensures TableOk(t.(callbacks := t.callbacks[id := c]), kinds)
  {
    var t' := t.(callbacks := t.callbacks[id := c]);
    forall i | 0 <= i < TABLE_SIZE ensures SlotOk(t', kinds, i) {
      assert SlotOk(t, kinds, i);
    }
  }

  /** When a handle cannot be inherited. */
  function InheritStatus(table: Table, dest: int, parent: Table, source: int, kinds: map<Hid, bool>): Status
    requires Shape(table) && Shape(parent)
  {
    if !IsSlot(source) then InvalidHandle
    else if !IsSlot(dest) then InvalidHandle
    else if parent.handles[source].None? then InvalidHandle
    else if table.handles[dest].Some? then AlreadyExists
    else if !Transferrable(kinds, parent.handles[source].value) then NotSupported
    else Success
  }

  /** Slot dest holds the handle of the parent's slot source, with the same flags. */
  predicate Gets(t: Table, dest: int, parent: Table, source: int) {
    && Shape(t) && Shape(parent) && IsSlot(dest) && IsSlot(source)
    && t.handles[dest].Some? && t.handles[dest] == parent.handles[source] && t.flags[dest] == parent.flags[source]
  }

  /** A slot of the parent is inherited if it is selected, and otherwise empty in the child. */
  predicate Selected(t: Table, parent: Table, kinds: map<Hid, bool>, clone: bool, i: nat)
    requires Shape(t) && Shape(parent) && i < TABLE_SIZE
  {
    var wanted :=
      && parent.handles[i].Some?
      && if clone then Transferrable(kinds, parent.handles[i].value) else Inheritable(parent.flags[i]);
    if wanted then t.handles[i] == parent.handles[i] && t.flags[i] == parent.flags[i] else t.handles[i].None?
  }

  lemma AllClear(t: Table, kinds: map<Hid, bool>)
    requires TableOk(t, kinds) && forall k :: 0 <= k < TABLE_SIZE ==> t.handles[k].None?
    ensures t == EmptyTable()
  {
    forall i | 0 <= i < TABLE_SIZE ensures !t.bitmap[i] && t.flags[i] == 0 && t.callbacks[i] == {} {
      assert SlotOk(t, kinds, i);
    }
  }

  /** The destinations of the first n pairs are different slots, and no other slot is occupied. */
  predicate OnlyDests(t: Table, pairs: seq<(int, int)>, n: nat)
    requires Shape(t) && n <= |pairs|
  {
    && (forall j :: 0 <= j < n ==> IsSlot(pairs[j].1) && t.handles[pairs[j].1].Some?)
    && (forall j, k :: 0 <= j < k < n ==> pairs[j].1 != pairs[k].1)
    && (forall s :: 0 <= s < TABLE_SIZE && t.handles[s].Some? ==> exists j :: 0 <= j < n && pairs[j].1 == s)
  }

  lemma DestAdded(t: Table, t': Table, pairs: seq<(int, int)>, n: nat)
    requires Shape(t) && Shape(t') && n < |pairs| && OnlyDests(t, pairs, n)
    requires IsSlot(pairs[n].1) && t.handles[pairs[n].1].None?
    requires t'.handles[pairs[n].1].Some?
    requires forall s :: 0 <= s < TABLE_SIZE && s != pairs[n].1 ==> t'.handles[s] == t.handles[s]
    ensures OnlyDests(t', pairs, n + 1)
  {
  }

  /** The first n pairs have been inherited, and nothing else. */
  ghost predicate Mapped(t: Table, from: Table, pairs: seq<(int, int)>, n: nat) {
    && Shape(t) && Shape(from) && n <= |pairs| && OnlyDests(t, pairs, n) && NoCallbacks(t)
    && forall k {:trigger Gets(t, pairs[k].1, from, pairs[k].0)} :: 0 <= k < n ==> Gets(t, pairs[k].1, from, pairs[k].0)
  }

  /** What becomes of pair k when all pairs before it have been inherited. */
  function PairStatus(from: Table, pairs: seq<(int, int)>, kinds: map<Hid, bool>, k: nat): Status
    requires Shape(from) && k < |pairs|
  {
    var (source, dest) := pairs[k];
    if !IsSlot(source) || !IsSlot(dest) || from.handles[source].None? then InvalidHandle
    else if exists j :: 0 <= j < k && pairs[j].1 == dest then AlreadyExists
    else if !Transferrable(kinds, from.handles[source].value) then NotSupported
    else Success
  }

  /** The first k pairs can be inherited; st is why the next one cannot, or Success if there is none. */
  ghost predicate FirstFailure(from: Table, pairs: seq<(int, int)>, kinds: map<Hid, bool>, k: nat, st: Status)
    requires Shape(from)
  {
    && k <= |pairs| && (forall j :: 0 <= j < k ==> PairStatus(from, pairs, kinds, j) == Success)
    && (st == Success <==> k == |pairs|) && (k < |pairs| ==> st == PairStatus(from, pairs, kinds, k))
  }

  lemma MappedStatus(t: Table, from: Table, pairs: seq<(int, int)>, kinds: map<Hid, bool>, k: nat)
    requires Mapped(t, from, pairs, k) && k < |pairs|
    ensures InheritStatus(t, pairs[k].1, from, pairs[k].0, kinds) == PairStatus(from, pairs, kinds, k)
  {
  }

  lemma MappedStep(t: Table, t': Table, from: Table, pairs: seq<(int, int)>, n: nat)
    requires Mapped(t, from, pairs, n) && n < |pairs|
    requires IsSlot(pairs[n].1) && IsSlot(pairs[n].0) && t.handles[pairs[n].1].None?
    requires from.handles[pairs[n].0].Some?
    requires t' == Put(t, pairs[n].1, from.handles[pairs[n].0].value, from.flags[pairs[n].0])
    ensures Mapped(t', from, pairs, n + 1)
  {
    DestAdded(t, t', pairs, n);
    forall k | 0 <= k < n + 1 ensures Gets(t', pairs[k].1, from, pairs[k].0) {
      assert k < n ==> Gets(t, pairs[k].1, from, pairs[k].0);
    }
  }

  lemma DestRemoved(t: Table, pairs: seq<(int, int)>, n: nat)
    requires Shape(t) && n < |pairs| && OnlyDests(t, pairs, n + 1)
    ensures OnlyDests(Clear(t, pairs[n].1), pairs, n)
  {
  }

  lemma EmptyHolds(t: Table, kinds: map<Hid, bool>)
    requires t == EmptyTable()
    ensures TableOk(t, kinds) && forall h: Hid :: Holding(t.handles, h) == 0
  {
    forall i | 0 <= i < TABLE_SIZE ensures SlotOk(t, kinds, i) {
    }
    forall h: Hid ensures Holding(t.handles, h) == 0 {
      HoldingNone(t.handles, h);
    }
  }

  /** Counts without zeroes are equal when all numbers are. */
  lemma SameCounts(c: Counts, c': Counts)
    requires NoZeroes(c) && NoZeroes(c') && forall h: Hid :: Count(c, h) == Count(c', h)
    ensures c == c'
  {
    forall h: Hid ensures (h in c <==> h in c') && (h in c ==> c[h] == c'[h]) {
      assert Count(c, h) == Count(c', h);
    }
  }

  /** A table whose references were held elsewhere becomes the table of process p, which had none. */
  lemma NewOwner(procs: seq<Table>, count: Counts, others: Counts, registered: Counts,
                 p: nat, t: Table, before: Counts)
    requires Counted(procs, count, others, registered) && p < |procs| && procs[p] == EmptyTable()
    requires forall h: Hid :: Count(others, h) == Count(before, h) + Holding(t.handles, h)
    ensures Counted(procs[p := t], count, before, registered)
  {
    forall h: Hid ensures Count(count, h) == Total(procs[p := t], h) + Count(before, h) + Count(registered, h) {
      assert Count(count, h) == Total(procs, h) + Count(others, h) + Count(registered, h);
      TotalUpdate(procs, p, t, h);
      HoldingNone(procs[p].handles, h);
    }
  }

  lemma NewTable(procs: seq<Table>, kinds: map<Hid, bool>, balance: Balance, balance': Balance,
                 count: Counts, others: Counts, registered: Counts, removed: Counts)
    requires TablesOk(procs, kinds) && Balanced(procs, balance)
    requires Counted(procs, count, others, registered) && Accounted(procs, registered, removed)
    requires forall q: nat, h: Hid :: Net(balance', q, h) == if q == |procs| then 0 else Net(balance, q, h)
    ensures var procs' := procs + [EmptyTable()];
      && TablesOk(procs', kinds) && Balanced(procs', balance')
      && Counted(procs', count, others, registered) && Accounted(procs', registered, removed)
  {
    var t := EmptyTable();
    var procs' := procs + [t];
    assert procs'[..|procs|] == procs;
    forall i | 0 <= i < TABLE_SIZE ensures SlotOk(t, kinds, i) {
    }
    forall h: Hid
      ensures Holding(t.handles, h) == 0 && Total(procs', h) == Total(procs, h) && Live(procs', h) == Live(procs, h)
    {
      HoldingNone(t.handles, h);
      LiveInNone(t.handles, t.callbacks, h);
    }
  }

  /** What kern_handle_duplicate returns; dest -1 is INVALID_HANDLE. */
  function DuplicateStatus(t: Table, handle: int, dest: int, given: bool, written: bool): Status
    requires Shape(t)
  {
    if !IsSlot(handle) then InvalidHandle
    else if if dest == -1 then !given else !IsSlot(dest) then InvalidArg
    else if t.handles[handle].None? then InvalidHandle
    else if dest == -1 && Full(t) then NoHandles
    else if !written then UserFault
    else Success
  }

  /** The last reference to a handle is duplicated onto its own slot. */
  predicate Dangles(t: Table, count: Counts, handle: int, dest: int, written: bool)
    requires Shape(t)
  {
    handle == dest && IsSlot(dest) && t.handles[dest].Some? && Count(count, t.handles[dest].value) == 1 && written
  }

  /** bitmap_ffz: the first clear bit. */
  method FirstZero(bitmap: seq<bool>) returns (id: Option<nat>)
    ensures id.None? ==> forall i :: 0 <= i < |bitmap| ==> bitmap[i]
    ensures id.Some? ==> id.value < |bitmap| && !bitmap[id.value] && forall i :: 0 <= i < id.value ==> bitmap[i]
  {
    var i := 0;
    while i < |bitmap|
      invariant 0 <= i <= |bitmap|
      invariant forall k :: 0 <= k < i ==> bitmap[k]
    {
      if !bitmap[i] {
        return Some(i);
      }
      i := i + 1;
    }
    return None;
  }

  /** References move between slots, callbacks and the rest of the kernel. */
  lemma CountedSame(procs: seq<Table>, count: Counts, others: Counts, registered: Counts,
                    count': Counts, others': Counts, registered': Counts)
    requires Counted(procs, count, others, registered)
    requires forall h: Hid ::
      Count(count', h) - Count(others', h) - Count(registered', h) ==
      Count(count, h) - Count(others, h) - Count(registered, h)
    ensures Counted(procs, count', others', registered')
  {
    forall h: Hid ensures Count(count', h) == Total(procs, h) + Count(others', h) + Count(registered', h) {
      assert Count(count, h) == Total(procs, h) + Count(others, h) + Count(registered, h);
    }
  }

  /** A table with its attach calls takes the place of an empty one. */
  lemma BalancedTable(procs: seq<Table>, balance: Balance, p: nat, t: Table, balance': Balance)
    requires Balanced(procs, balance) && p < |procs| && procs[p] == EmptyTable()
    requires forall q: nat, h: Hid ::
      Net(balance', q, h) == Net(balance, q, h) + if q == p then Holding(t.handles, h) else 0
    ensures Balanced(procs[p := t], balance')
  {
    forall q: nat, h: Hid | q < |procs| ensures Net(balance', q, h) == Holding(procs[p := t][q].handles, h) {
      assert Net(balance, q, h) == Holding(procs[q].handles, h);
      HoldingNone(procs[p].handles, h);
    }
  }

  /** The callbacks of a slot go with its handle. */
  lemma AccountedClear(procs: seq<Table>, p: nat, i: nat, h: Hid, registered: Counts, removed: Counts)
    requires p < |procs| && (forall q :: 0 <= q < |procs| ==> Shape(procs[q])) && i < TABLE_SIZE
    requires Accounted(procs, registered, removed) && procs[p].handles[i] == Some(h)
    ensures Accounted(procs[p := Clear(procs[p], i)], registered, Plus(removed, h, |procs[p].callbacks[i]|))
  {
    var removed' := Plus(removed, h, |procs[p].callbacks[i]|);
    AccountedSlot(procs, p, Clear(procs[p], i), i, None, {}, registered, removed, registered, removed');
  }

  /** A slot with a handle that has been freed is counted by no references. */
  lemma Freed(procs: seq<Table>, count: Counts, others: Counts, registered: Counts, p: nat, i: nat, h: Hid)
    requires p < |procs| && i < |procs[p].handles| && procs[p].handles[i] == Some(h) && h !in count
    ensures !Counted(procs, count, others, registered)
  {
    HoldingOne(procs[p].handles, i, h);
    TotalOne(procs, p, h);
    assert Count(count, h) < Total(procs, h);
  }

  lemma ClearEmpty(t: Table, kinds: map<Hid, bool>, id: nat)
    requires TableOk(t, kinds) && id < TABLE_SIZE && t.handles[id].None?
    ensures Clear(t, id) == t
  {
    assert SlotOk(t, kinds, id);
  }

  /** Giving up a table gives back a reference for each of its slots. */
  lemma GivenBack(procs: seq<Table>, p: nat, count: Counts, count': Counts, others: Counts, registered: Counts, h: Hid)
    requires p < |procs| && Counted(procs, count, others, registered)
    requires Counted(procs[p := EmptyTable()], count', others, registered)
    ensures Count(count', h) == Count(count, h) - Holding(procs[p].handles, h)
  {
    assert Count(count, h) == Total(procs, h) + Count(others, h) + Count(registered, h);
    TotalUpdate(procs, p, EmptyTable(), h);
    HoldingNone(EmptyTable().handles, h);
  }

  /** The callbacks of other threads. */
  function OtherThreads(c: set<Key>, thread: nat): set<Key> {
    set k | k in c && k.thread != thread
  }

  /** Table t after the callbacks of a thread have been removed from the first n slots. */
  predicate Hushed(t': Table, t: Table, thread: nat, n: nat) {
    && Shape(t) && Shape(t') && t' == t.(callbacks := t'.callbacks)
    && forall i :: 0 <= i < TABLE_SIZE ==>
         t'.callbacks[i] == if i < n then OtherThreads(t.callbacks[i], thread) else t.callbacks[i]
  }

  /** The thread has a callback for the event of the slot. */
  predicate HasCallback(t: Table, id: int, key: Key)
    requires Shape(t)
  {
    IsSlot(id) && key in t.callbacks[id]
  }

  function WithCallbacks(t: Table, id: nat, c: set<Key>): Table
    requires Shape(t) && id < TABLE_SIZE
  {
    t.(callbacks := t.callbacks[id := c])
  }

  /** What becomes of a new callback; ret is the answer of the type's wait function. */
  function RegisterStatus(t: Table, id: int, waits: bool, ret: Status): Status
    requires Shape(t)
  {
    if !IsSlot(id) || t.handles[id].None? then InvalidHandle else if !waits then InvalidEvent else ret
  }

  const THREAD_IPL_EXCEPTION := 14

  /**
    The arguments of kern_object_callback: whether there is an event and a
    callback, the priority, whether the callback is a user address, whether the
    event could be copied, and OBJECT_EVENT_EDGE in its flags.
   */
  datatype Args = Args(event: bool, callback: bool, priority: nat, user: bool, copied: bool, edge: bool)

  /** What kern_object_callback finds wrong before it looks at the table. */
  function ArgStatus(a: Args): Status {
    if !a.event || a.priority >= THREAD_IPL_EXCEPTION then InvalidArg
    else if a.callback && !a.user then InvalidAddr
    else if !a.copied then UserFault
    else if !a.edge then NotSupported
    else Success
  }

  /** Each answer and what it says about the arguments. */
  lemma ArgStatusMeans(a: Args)
    ensures ArgStatus(a) == Success <==>
      a.event && a.priority < THREAD_IPL_EXCEPTION && (a.callback ==> a.user) && a.copied && a.edge
    ensures ArgStatus(a) == InvalidArg <==> !(a.event && a.priority < THREAD_IPL_EXCEPTION)
    ensures ArgStatus(a) == InvalidAddr ==> a.callback && !a.user
    ensures ArgStatus(a) == UserFault ==> (a.callback ==> a.user) && !a.copied
    ensures ArgStatus(a) == NotSupported ==> a.copied && !a.edge
  {
  }

  /** What it returns after that; a failure is also written to the event. */
  function CallbackStatus(t: Table, id: int, key: Key, waits: bool, ret: Status, written: bool): Status
    requires Shape(t)
  {
    if HasCallback(t, id, key) then Success else
    var r := RegisterStatus(t, id, waits, ret);
    if r == Success || written then r else UserFault
  }

  /** The tables and references at one moment. */
  datatype Kernel = Kernel(procs: seq<Table>, count: Counts, kinds: map<Hid, bool>, others: Counts)

  /** The process exists. */
  predicate Has(s: Kernel, p: nat) {
    p < |s.procs| && Shape(s.procs[p])
  }

  /** The slot of the process holds a handle. */
  predicate Holds(s: Kernel, p: nat, id: int) {
    Has(s, p) && IsSlot(id) && s.procs[p].handles[id].Some?
  }

  function WithTable(s: Kernel, p: nat, t: Table): Kernel
    requires p < |s.procs|
  {
    s.(procs := s.procs[p := t])
  }

  /** Handle h is in the first free slot. */
  ghost predicate Attached(s: Kernel, s': Kernel, p: nat, h: Hid, count: Counts)
    requires Has(s, p)
  {
    exists id: nat :: FirstFree(s.procs[p], id) && s' == WithTable(s, p, Put(s.procs[p], id, h, 0)).(count := count)
  }

  /** What opening a new handle does. */
  ghost predicate Opens(s: Kernel, s': Kernel, p: nat, h: Hid, transferrable: bool, written: bool)
    requires Has(s, p)
  {
    var between := s.(kinds := s.kinds[h := transferrable]);
    if Full(s.procs[p]) || !written then s' == between else Attached(between, s', p, h, s.count[h := 1])
  }

  /** What kern_handle_duplicate does. */
  ghost predicate Duplicates(s: Kernel, s': Kernel, p: nat, handle: int, dest: int, given: bool, written: bool)
    requires Has(s, p)
  {
    var t := s.procs[p];
    var st := DuplicateStatus(t, handle, dest, given, written);
    if st !in {UserFault, Success} then s' == s else
    var between := if dest == -1 then s
                   else WithTable(s, p, Clear(t, dest)).(count := Released(s.count, t.handles[dest]));
    var h := t.handles[handle].value;
    if st == UserFault then s' == between
    else if dest == -1 then Attached(s, s', p, h, Retained(s.count, h))
    else s' == WithTable(s, p, Put(Clear(t, dest), dest, h, 0)).(count := Retained(between.count, h))
  }

  /** What kern_object_callback does. */
  ghost predicate CallsBack(s: Kernel, s': Kernel, p: nat, id: int, key: Key, given: bool, waits: bool, ret: Status)
    requires Has(s, p)
  {
    var t := s.procs[p];
    if !HasCallback(t, id, key) && RegisterStatus(t, id, waits, ret) != Success then s' == s
    else
      && IsSlot(id) && var c := t.callbacks[id];
      var after := WithTable(s, p, WithCallbacks(t, id, if key !in c || given then c + {key} else c - {key}));
      if key in c then s' == after
      else t.handles[id].Some? && s' == after.(count := Increment(s.count, t.handles[id].value))
  }

  /** The table of process p is another one, and references have come and gone with its slots. */
  ghost predicate Replaces(s: Kernel, s': Kernel, p: nat) {
    && Has(s, p) && Has(s', p) && s' == WithTable(s, p, s'.procs[p]).(count := s'.count)
    && forall h: Hid {:trigger Count(s'.count, h)} ::
         Count(s'.count, h) - Count(s.count, h) == Holding(s'.procs[p].handles, h) - Holding(s.procs[p].handles, h)
  }

  /** What a table gets from another one, by the map or, for a negative n, by the flags. */
  ghost predicate Inherits(t: Table, from: Table, kinds: map<Hid, bool>, pairs: seq<(int, int)>, n: int,
                           k: nat, st: Status)
    requires Shape(t) && Shape(from) && n <= |pairs|
  {
    if n > 0 then Mapped(t, from, pairs[..n], k) && FirstFailure(from, pairs[..n], kinds, k, st)
    else if n == 0 then t == EmptyTable()
    else forall i :: 0 <= i < TABLE_SIZE ==> Selected(t, from, kinds, false, i)
  }

  /** Some number of pairs is inherited, up to the first failure. */
  ghost predicate Spawns(s: Kernel, s': Kernel, p: nat, parent: nat, pairs: seq<(int, int)>, n: int)
    requires Has(s, parent) && n <= |pairs|
  {
    Replaces(s, s', p) &&
    exists k, st :: Inherits(s'.procs[p], s.procs[parent], s.kinds, pairs, n, k, st)
  }

  /** A failure changes nothing, otherwise the new table is taken from the old one. */
  ghost predicate Executes(s: Kernel, s': Kernel, p: nat, pairs: seq<(int, int)>, n: int)
    requires Has(s, p) && n <= |pairs|
  {
    if n > 0 && exists k, st :: st != Success && FirstFailure(s.procs[p], pairs[..n], s.kinds, k, st) then s' == s
    else Replaces(s, s', p) && exists k :: Inherits(s'.procs[p], s.procs[p], s.kinds, pairs, n, k, Success)
  }

  lemma CountsFollow(s: Kernel, s': Kernel, registered: Counts, p: nat)
    requires Has(s, p) && Has(s', p) && s' == WithTable(s, p, s'.procs[p]).(count := s'.count)
    requires Counted(s.procs, s.count, s.others, registered) && Counted(s'.procs, s'.count, s'.others, registered)
    ensures Replaces(s, s', p)
  {
    forall h: Hid
      ensures Count(s'.count, h) - Count(s.count, h) == Holding(s'.procs[p].handles, h) - Holding(s.procs[p].handles, h)
    {
      assert Count(s.count, h) == Total(s.procs, h) + Count(s.others, h) + Count(registered, h);
      TotalUpdate(s.procs, p, s'.procs[p], h);
    }
  }

  lemma FirstFailureIsUnique(from: Table, pairs: seq<(int, int)>, kinds: map<Hid, bool>,
                             k: nat, st: Status, k': nat, st': Status)
    requires Shape(from) && FirstFailure(from, pairs, kinds, k, st) && FirstFailure(from, pairs, kinds, k', st')
    ensures k == k' && st == st'
  {
  }

  class Objects {
    var procs: seq<Table>
    var count: Counts
    var kinds: map<Hid, bool>        // whether the type of a handle is transferrable
    var balance: Balance             // attach calls minus detach calls
    var others: Counts               // references held by the rest of the kernel
    ghost var registered: Counts     // callbacks that have been registered
    ghost var removed: Counts        // callbacks that have been removed

    ghost function State(): Kernel
      reads this
    {
      Kernel(procs, count, kinds, others)
    }

    ghost predicate Valid()
      reads this
    {
      && TablesOk(procs, kinds) && Balanced(procs, balance)
      && Counted(procs, count, others, registered) && Accounted(procs, registered, removed)
      && NoZeroes(count) && NoZeroes(others) && forall h :: h in count ==> h in kinds
    }

    constructor ()
      ensures Valid() && procs == [] && count == map[] && kinds == map[] && others == map[]
      ensures registered == map[] && removed == map[]
    {
      procs, count, kinds, balance, others := [], map[], map[], map[], map[];
      registered, removed := map[], map[];
    }

    /** A handle in a table has not been freed. */
    lemma HandleIsAlive(p: nat, i: nat)
      requires Valid() && p < |procs| && Shape(procs[p]) && i < TABLE_SIZE && procs[p].handles[i].Some?
      ensures procs[p].handles[i].value in count && procs[p].handles[i].value in kinds
    {
      var h := procs[p].handles[i].value;
      HoldingOne(procs[p].handles, i, h);
      TotalOne(procs, p, h);
      assert Count(count, h) > 0;
    }

    /** object_handle_create, with the address of the new handle. */
    method Create(h: Hid, transferrable: bool)
      requires Valid() && h !in kinds
      modifies `count, `kinds, `others
      ensures Valid() && count == old(count)[h := 1] && kinds == old(kinds)[h := transferrable]
      ensures h !in old(count) && h !in old(others) && others == old(others)[h := 1]
    {
      assert Count(count, h) == 0 && Count(others, h) == 0;
      forall p | 0 <= p < |procs| ensures TableOk(procs[p], kinds[h := transferrable]) {
        MoreKinds(procs[p], kinds, kinds[h := transferrable]);
      }
      count, kinds, others := count[h := 1], kinds[h := transferrable], others[h := 1];
      CountedSame(procs, old(count), old(others), registered, count, others, registered);
    }

    /** Handle h goes into an empty slot, with a new reference or with one that was held elsewhere. */
    method Fill(p: nat, id: nat, h: Hid, retain: bool)
      requires Valid() && p < |procs| && Shape(procs[p]) && id < TABLE_SIZE && procs[p].handles[id].None? && h in count
      requires !retain ==> Count(others, h) > 0
      modifies `procs, `count, `balance, `others
      ensures Valid() && procs == old(procs)[p := Put(old(procs[p]), id, h, 0)]
      ensures if retain then count == Increment(old(count), h) && others == old(others)
              else count == old(count) && others == Decrement(old(others), h)
    {
      var t := procs[p];
      assert TableOk(t, kinds) && SlotOk(t, kinds, id);
      if retain {
        count := Increment(count, h);
      } else {
        others := Decrement(others, h);
      }
      balance := Add(balance, p, h, 1);
      procs := procs[p := Put(t, id, h, 0)];
      PutOk(t, kinds, id, h, 0);
      AccountedQuiet(old(procs), p, procs[p], id, Some(h), registered, removed);
      BalancedSlot(old(procs), old(balance), p, procs[p], id, Some(h), balance);
      CountedSlot(old(procs), old(count), old(others), registered, p, procs[p], id, Some(h), count, others);
    }

    /** attach_handle. */
    method Attach(p: nat, h: Hid, retain: bool, written: bool) returns (st: Status, id: nat)
      requires Valid() && p < |procs| && h in count && (!retain ==> Count(others, h) > 0)
      modifies `procs, `count, `balance, `others
      ensures Valid() && Shape(old(procs[p]))
      ensures st == (if Full(old(procs[p])) then NoHandles else if written then Success else UserFault)
      ensures st != Success ==> procs == old(procs) && count == old(count) && others == old(others)
      ensures st != Success ==> balance == old(balance)
      ensures st == Success ==> FirstFree(old(procs[p]), id) && procs == old(procs)[p := Put(old(procs[p]), id, h, 0)]
      ensures st == Success ==> if retain then count == Increment(old(count), h) && others == old(others)
                                else count == old(count) && others == Decrement(old(others), h)
    {
      var t := procs[p];
      assert TableOk(t, kinds);
      var free := FirstZero(t.bitmap);
      BitmapIsOccupancy(t, kinds);
      if free.None? {
        return NoHandles, 0;
      }
      id := free.value;
      if !written {
        return UserFault, id;
      }
      Fill(p, id, h, retain);
      st := Success;
    }

    /** object_handle_release of a reference that is not a slot. */
    method Release(h: Hid)
      requires Valid() && Count(others, h) > 0
      modifies `count, `others
      ensures Valid() && count == Decrement(old(count), h) && others == Decrement(old(others), h)
    {
      assert Count(count, h) > 0;
      count, others := Decrement(count, h), Decrement(others, h);
      CountedSame(procs, old(count), old(others), registered, count, others, registered);
    }

    /** object_handle_lookup; typed tells whether the handle has the wanted type. */
    method Lookup(p: nat, id: int, typed: bool) returns (st: Status, h: Hid)
      requires Valid() && p < |procs|
      modifies `count, `others
      ensures Valid() && Shape(procs[p])
      ensures st == if IsSlot(id) && procs[p].handles[id].Some? && typed then Success else InvalidHandle
      ensures st != Success ==> count == old(count) && others == old(others)
      ensures st == Success ==> procs[p].handles[id] == Some(h) && h in old(count)
      ensures st == Success ==> count == Increment(old(count), h) && others == Increment(old(others), h)
    {
      assert TableOk(procs[p], kinds);
      if !IsSlot(id) || procs[p].handles[id].None? || !typed {
        return InvalidHandle, 0;
      }
      h := procs[p].handles[id].value;
      HandleIsAlive(p, id);
      count, others := Increment(count, h), Increment(others, h);
      CountedSame(procs, old(count), old(others), registered, count, others, registered);
      st := Success;
    }

    /** object_handle_open: when the table is full, the new handle is freed again. */
    method Open(p: nat, h: Hid, transferrable: bool, written: bool) returns (st: Status, id: nat)
      requires Valid() && p < |procs| && h !in kinds
      modifies `procs, `count, `kinds, `balance, `others
      ensures Valid() && Shape(old(procs[p])) && others == old(others) && kinds == old(kinds)[h := transferrable]
      ensures st == (if Full(old(procs[p])) then NoHandles else if written then Success else UserFault)
      ensures st != Success ==> procs == old(procs) && count == old(count) && balance == old(balance)
      ensures st == Success ==> FirstFree(old(procs[p]), id) && procs == old(procs)[p := Put(old(procs[p]), id, h, 0)]
      ensures st == Success ==> count == old(count)[h := 1]
    {
      Create(h, transferrable);
      st, id := Attach(p, h, false, written);
      if st != Success {
        Release(h);
      }
    }

    /** detach_handle. */
    method Detach(p: nat, id: int) returns (st: Status)
      requires Valid() && p < |procs|
      modifies `procs, `count, `balance, `removed
      ensures Valid() && Shape(old(procs[p]))
      ensures st == if IsSlot(id) && old(procs[p]).handles[id].Some? then Success else InvalidHandle
      ensures st != Success ==> procs == old(procs) && count == old(count) && removed == old(removed)
      ensures st != Success ==> balance == old(balance)
      ensures st == Success ==> var h := old(procs[p]).handles[id].value;
        && procs == old(procs)[p := Clear(old(procs[p]), id)] && count == Decrement(old(count), h)
        && removed == Plus(old(removed), h, |old(procs[p]).callbacks[id]|)
    {
      var t := procs[p];
      assert TableOk(t, kinds);
      if !IsSlot(id) || t.handles[id].None? {
        return InvalidHandle;
      }
      var h := t.handles[id].value;
      HandleIsAlive(p, id);
      balance := Add(balance, p, h, -1);
      count := Decrement(count, h);   // the callbacks of the slot are removed, but not their references
      removed := Plus(removed, h, |t.callbacks[id]|);
      procs := procs[p := Clear(t, id)];
      st := Success;
      ClearOk(t, kinds, id);
      AccountedClear(old(procs), p, id, h, registered, old(removed));
      BalancedSlot(old(procs), old(balance), p, procs[p], id, None, balance);
      CountedSlot(old(procs), old(count), others, registered, p, procs[p], id, None, count, others);
    }

    /** Closes any handle in the slot. */
    method Vacate(p: nat, id: nat)
      requires Valid() && p < |procs| && id < TABLE_SIZE
      modifies `procs, `count, `balance, `removed
      ensures Valid() && Shape(old(procs[p])) && procs == old(procs)[p := Clear(old(procs[p]), id)]
      ensures count == Released(old(count), old(procs[p]).handles[id])
    {
      assert TableOk(procs[p], kinds);
      var st := Detach(p, id);
      if st != Success {
        ClearEmpty(procs[p], kinds, id);
      }
    }

    /** A pointer to handle h goes into an empty slot and is retained, even if the handle is gone. */
    method Insert(p: nat, id: nat, h: Hid)
      requires Valid() && p < |procs| && Shape(procs[p]) && id < TABLE_SIZE && procs[p].handles[id].None?
      modifies `procs, `count, `balance, `others
      ensures procs == old(procs)[p := Put(old(procs[p]), id, h, 0)] && count == Retained(old(count), h)
      ensures (Valid() <==> h in old(count)) && others == old(others)
    {
      if h in count {
        Fill(p, id, h, true);
      } else {
        balance := Add(balance, p, h, 1);
        procs := procs[p := Put(procs[p], id, h, 0)];
        Freed(procs, count, others, registered, p, id, h);
      }
    }

    /** kern_handle_duplicate; only the last reference of a handle is lost on its own slot. */
    method Duplicate(p: nat, handle: int, dest: int, given: bool, written: bool) returns (st: Status, id: nat)
      requires Valid() && p < |procs|
      modifies `procs, `count, `balance, `others, `removed
      ensures others == old(others)
      ensures Shape(old(procs[p])) && st == DuplicateStatus(old(procs[p]), handle, dest, given, written)
      ensures st in {InvalidHandle, InvalidArg, NoHandles} ==>
        procs == old(procs) && count == old(count) && balance == old(balance)
      ensures st in {UserFault, Success} ==>
        var t := if dest == -1 then old(procs[p]) else Clear(old(procs[p]), dest);
        var c := if dest == -1 then old(count) else Released(old(count), old(procs[p]).handles[dest]);
        var h := old(procs[p]).handles[handle].value;
        && id < TABLE_SIZE && (if dest == -1 then FirstFree(old(procs[p]), id) else id == dest)
        && procs == old(procs)[p := if st == Success then Put(t, id, h, 0) else t]
        && count == if st == Success then Retained(c, h) else c
      ensures Valid() <==> !Dangles(old(procs[p]), old(count), handle, dest, written)
    {
      assert TableOk(procs[p], kinds);
      id := 0;
      if !IsSlot(handle) {
        return InvalidHandle, id;
      }
      if dest == -1 {
        if !given {
          return InvalidArg, id;
        }
      } else if !IsSlot(dest) {
        return InvalidArg, id;
      }
      if procs[p].handles[handle].None? {
        return InvalidHandle, id;
      }
      var h := procs[p].handles[handle].value;
      HandleIsAlive(p, handle);
      if dest != -1 {
        Vacate(p, dest);
        id := dest;
        if handle != dest {
          HandleIsAlive(p, handle);
        }
      } else {
        var free := FirstZero(procs[p].bitmap);
        BitmapIsOccupancy(procs[p], kinds);
        if free.None? {
          return NoHandles, id;
        }
        id := free.value;
      }
      if !written {
        return UserFault, id;
      }
      Insert(p, id, h);
      st := Success;
    }

    /** kern_handle_set_flags. */
    method SetFlags(p: nat, id: int, flags: nat) returns (st: Status)
      requires Valid() && p < |procs|
      modifies `procs
      ensures Valid() && Shape(old(procs[p]))
      ensures st == if !IsSlot(id) || old(procs[p]).handles[id].None? then InvalidHandle
                    else if Inheritable(flags) && !Transferrable(kinds, old(procs[p]).handles[id].value)
                    then NotSupported else Success
      ensures procs == if st == Success then old(procs)[p := old(procs[p]).(flags := old(procs[p]).flags[id := flags])]
                       else old(procs)
    {
      var t := procs[p];
      assert TableOk(t, kinds);
      if !IsSlot(id) || t.handles[id].None? {
        return InvalidHandle;
      }
      assert SlotOk(t, kinds, id);
      if Inheritable(flags) && !Transferrable(kinds, t.handles[id].value) {
        return NotSupported;
      }
      procs := procs[p := t.(flags := t.flags[id := flags])];
      st := Success;
      Reflagged(t, kinds, id, flags);
      AccountedQuiet(old(procs), p, procs[p], id, t.handles[id], registered, removed);
      SameSlots(old(procs), procs, balance, count, others, registered);
    }

    /** A reference that was looked up becomes that of a new callback. */
    method AddCallback(p: nat, id: nat, key: Key, h: Hid)
      requires Valid() && p < |procs| && Shape(procs[p]) && id < TABLE_SIZE && procs[p].handles[id] == Some(h)
      requires key !in procs[p].callbacks[id] && Count(others, h) > 0
      modifies `procs, `others, `registered
      ensures Valid() && others == Decrement(old(others), h) && registered == Increment(old(registered), h)
      ensures procs == old(procs)[p := WithCallbacks(old(procs[p]), id, old(procs[p]).callbacks[id] + {key})]
    {
      var t := procs[p];
      var c := t.callbacks[id] + {key};
      assert TableOk(t, kinds);
      others, registered := Decrement(others, h), Increment(registered, h);
      procs := procs[p := WithCallbacks(t, id, c)];
      Recalled(t, kinds, id, c);
      assert procs[p].handles == t.handles[id := Some(h)];
      AccountedSlot(old(procs), p, procs[p], id, Some(h), c, old(registered), removed, registered, removed);
      SameSlots(old(procs), procs, balance, count, old(others), old(registered));
      CountedSame(procs, count, old(others), old(registered), count, others, registered);
    }

    /** A new callback: the lookup of the handle takes a reference, which a failure gives back. */
    method Register(p: nat, id: int, key: Key, waits: bool, ret: Status) returns (st: Status)
      requires Valid() && p < |procs| && Shape(procs[p]) && !HasCallback(procs[p], id, key)
      modifies `procs, `count, `others, `registered
      ensures Valid() && st == RegisterStatus(old(procs[p]), id, waits, ret) && others == old(others)
      ensures st != Success ==> procs == old(procs) && count == old(count) && registered == old(registered)
      ensures st == Success ==> var h := old(procs[p]).handles[id].value;
        && procs == old(procs)[p := WithCallbacks(old(procs[p]), id, old(procs[p]).callbacks[id] + {key})]
        && count == Increment(old(count), h) && registered == Increment(old(registered), h)
    {
      var h;
      st, h := Lookup(p, id, true);
      if st != Success {
        return;
      }
      if !waits || ret != Success {
        Release(h);
        return if waits then ret else InvalidEvent;
      }
      AddCallback(p, id, key, h);
    }

    /** remove_callback for some callbacks of a slot: their references are not released. */
    method Drop(p: nat, id: nat, gone: set<Key>)
      requires Valid() && p < |procs| && Shape(procs[p]) && id < TABLE_SIZE && procs[p].handles[id].Some?
      requires gone <= procs[p].callbacks[id]
      modifies `procs, `removed
      ensures Valid() && procs == old(procs)[p := WithCallbacks(old(procs[p]), id, old(procs[p]).callbacks[id] - gone)]
      ensures removed == Plus(old(removed), old(procs[p]).handles[id].value, |gone|)
    {
      var t, h := procs[p], procs[p].handles[id].value;
      var c := t.callbacks[id] - gone;
      assert TableOk(t, kinds);
      assert t.callbacks[id] == c + gone && |t.callbacks[id]| == |c| + |gone|;
      removed := Plus(removed, h, |gone|);
      procs := procs[p := WithCallbacks(t, id, c)];
      Recalled(t, kinds, id, c);
      assert procs[p].handles == t.handles[id := Some(h)];
      AccountedSlot(old(procs), p, procs[p], id, Some(h), c, registered, old(removed), registered, removed);
      SameSlots(old(procs), procs, balance, count, others, registered);
    }

    /** remove_callback. */
    method Unregister(p: nat, id: nat, key: Key)
      requires Valid() && p < |procs| && Shape(procs[p]) && HasCallback(procs[p], id, key)
      modifies `procs, `removed
      ensures Valid() && procs == old(procs)[p := WithCallbacks(old(procs[p]), id, old(procs[p]).callbacks[id] - {key})]
      ensures old(procs[p]).handles[id].Some? && removed == Increment(old(removed), old(procs[p]).handles[id].value)
    {
      assert TableOk(procs[p], kinds) && SlotOk(procs[p], kinds, id);
      Drop(p, id, {key});
    }

    /** The part of kern_object_callback under the lock: the callback is updated, removed or registered. */
    method SetCallback(p: nat, id: int, key: Key, given: bool, waits: bool, ret: Status, written: bool)
      returns (st: Status)
      requires Valid() && p < |procs|
      modifies `procs, `count, `others, `registered, `removed
      ensures Valid() && Shape(old(procs[p])) && others == old(others)
      ensures st == CallbackStatus(old(procs[p]), id, key, waits, ret, written)
      ensures st != Success ==> procs == old(procs) && count == old(count)
      ensures st == Success ==> IsSlot(id) && var c := old(procs[p]).callbacks[id];
        var c' := if key !in c || given then c + {key} else c - {key};
        && procs == old(procs)[p := WithCallbacks(old(procs[p]), id, c')]
        && (key in c ==> count == old(count))
        && (key !in c ==> count == Increment(old(count), old(procs[p]).handles[id].value))
    {
      assert TableOk(procs[p], kinds);
      if HasCallback(procs[p], id, key) {
        if !given {
          Unregister(p, id, key);
        } else {
          assert procs[p].callbacks[id] + {key} == procs[p].callbacks[id];
          assert procs[p].callbacks == procs[p].callbacks[id := procs[p].callbacks[id]];
        }
        return Success;
      }
      st := Register(p, id, key, waits, ret);
      if st != Success && !written {
        st := UserFault;
      }
    }

    /** kern_object_callback: bad arguments change nothing. */
    method Callback(p: nat, args: Args, id: int, key: Key, waits: bool, ret: Status, written: bool)
      returns (st: Status)
      requires Valid() && p < |procs|
      modifies `procs, `count, `others, `registered, `removed
      ensures Valid() && Has(old(State()), p)
      ensures st == if ArgStatus(args) != Success then ArgStatus(args)
                    else CallbackStatus(old(procs[p]), id, key, waits, ret, written)
      ensures if ArgStatus(args) == Success then CallsBack(old(State()), State(), p, id, key, args.callback, waits, ret)
              else State() == old(State())
    {
      assert TableOk(procs[p], kinds);
      st := ArgStatus(args);
      if st == Success {
        st := SetCallback(p, id, key, args.callback, waits, ret, written);
      }
    }

    /** object_thread_cleanup: removes the callbacks of a thread. */
    method ThreadCleanup(p: nat, thread: nat)
      requires Valid() && p < |procs|
      modifies `procs, `removed
      ensures Valid() && |procs| == |old(procs)| && procs == old(procs)[p := procs[p]]
      ensures Hushed(procs[p], old(procs)[p], thread, TABLE_SIZE)
    {
      assert TableOk(procs[p], kinds);
      var i := 0;
      while i < TABLE_SIZE
        invariant 0 <= i <= TABLE_SIZE && Valid() && |procs| == |old(procs)| && procs == old(procs)[p := procs[p]]
        invariant Hushed(procs[p], old(procs)[p], thread, i)
      {
        ThreadCleanupSlot(p, thread, i, old(procs)[p]);
        i := i + 1;
      }
    }

    method ThreadCleanupSlot(p: nat, thread: nat, i: nat, ghost t: Table)
      requires Valid() && p < |procs| && i < TABLE_SIZE && Hushed(procs[p], t, thread, i)
      modifies `procs, `removed
      ensures Valid() && |procs| == |old(procs)| && procs == old(procs)[p := procs[p]]
      ensures Hushed(procs[p], t, thread, i + 1)
    {
      assert TableOk(procs[p], kinds) && SlotOk(procs[p], kinds, i);
      var c := procs[p].callbacks[i];
      var gone := set k | k in c && k.thread == thread;
      assert c - gone == OtherThreads(c, thread);
      if gone != {} {
        Drop(p, i, gone);
      }
    }

    /** What the invariant says about references: only those of removed callbacks are lost. */
    lemma References(h: Hid)
      requires Valid()
      ensures Count(count, h) == Total(procs, h) + Live(procs, h) + Count(others, h) + Count(removed, h)
      ensures Count(count, h) == Total(procs, h) + Live(procs, h) + Count(others, h) <==> Count(removed, h) == 0
    {
      assert Live(procs, h) + Count(removed, h) == Count(registered, h);
    }

    /** object_process_init of a new process. */
    method NewProcess() returns (p: nat)
      requires Valid()
      modifies `procs, `balance
      ensures Valid() && p == |old(procs)| && procs == old(procs) + [EmptyTable()]
    {
      p := |procs|;
      procs := procs + [EmptyTable()];
      balance := map k | k in balance && k.0 != p :: balance[k];
      NewTable(old(procs), kinds, old(balance), balance, count, others, registered, removed);
    }

    /** inherit_handle between the tables of two processes. */
    method InheritInto(p: nat, dest: int, parent: nat, source: int) returns (st: Status)
      requires Valid() && p < |procs| && parent < |procs|
      modifies `procs, `count, `balance
      ensures Valid() && Shape(old(procs[p])) && Shape(old(procs[parent]))
      ensures st == InheritStatus(old(procs[p]), dest, old(procs[parent]), source, kinds)
      ensures st != Success ==> procs == old(procs) && count == old(count) && balance == old(balance)
      ensures st == Success ==>
        var h, flags := old(procs[parent]).handles[source].value, old(procs[parent]).flags[source];
        procs == old(procs)[p := Put(old(procs[p]), dest, h, flags)] && count == Increment(old(count), h)
    {
      var t, from := procs[p], procs[parent];
      assert TableOk(t, kinds) && TableOk(from, kinds);
      st := InheritStatus(t, dest, from, source, kinds);
      if st != Success {
        return;
      }
      var h := from.handles[source].value;
      HandleIsAlive(parent, source);
      assert SlotOk(from, kinds, source) && SlotOk(t, kinds, dest);
      count := Increment(count, h);
      balance := Add(balance, p, h, 1);
      procs := procs[p := Put(t, dest, h, from.flags[source])];
      PutOk(t, kinds, dest, h, from.flags[source]);
      AccountedQuiet(old(procs), p, procs[p], dest, Some(h), registered, removed);
      BalancedSlot(old(procs), old(balance), p, procs[p], dest, Some(h), balance);
      CountedSlot(old(procs), old(count), others, registered, p, procs[p], dest, Some(h), count, others);
    }

    /** object_process_create with a map of slots; k pairs are inherited. */
    method CreateMapped(p: nat, parent: nat, pairs: seq<(int, int)>) returns (st: Status, ghost k: nat)
      requires Valid() && p < |procs| && parent < |procs| && p != parent && procs[p] == EmptyTable()
      modifies `procs, `count, `balance
      ensures Valid() && |procs| == |old(procs)| && procs == old(procs)[p := procs[p]]
      ensures Mapped(procs[p], procs[parent], pairs, k) && FirstFailure(procs[parent], pairs, kinds, k, st)
    {
      assert TableOk(procs[parent], kinds);
      var i := 0;
      while i < |pairs|
        invariant 0 <= i <= |pairs| && Valid() && |procs| == |old(procs)| && procs == old(procs)[p := procs[p]]
        invariant Mapped(procs[p], procs[parent], pairs, i)
        invariant forall j :: 0 <= j < i ==> PairStatus(procs[parent], pairs, kinds, j) == Success
      {
        ghost var t := procs[p];
        MappedStatus(t, procs[parent], pairs, kinds, i);
        st := InheritInto(p, pairs[i].1, parent, pairs[i].0);
        if st != Success {
          return st, i;
        }
        MappedStep(t, procs[p], procs[parent], pairs, i);
        i := i + 1;
      }
      return Success, i;
    }

    /** object_process_create without a map: all inheritable handles; object_process_clone: all transferrable ones. */
    method InheritAll(p: nat, parent: nat, clone: bool)
      requires Valid() && p < |procs| && parent < |procs| && p != parent && procs[p] == EmptyTable()
      modifies `procs, `count, `balance
      ensures Valid() && |procs| == |old(procs)| && procs == old(procs)[p := procs[p]]
      ensures Shape(procs[p]) && Shape(procs[parent])
      ensures forall i :: 0 <= i < TABLE_SIZE ==> Selected(procs[p], procs[parent], kinds, clone, i)
    {
      var i := 0;
      while i < TABLE_SIZE
        invariant 0 <= i <= TABLE_SIZE && Valid() && |procs| == |old(procs)| && procs == old(procs)[p := procs[p]]
        invariant Shape(procs[p]) && Shape(procs[parent])
        invariant forall k :: 0 <= k < i ==> Selected(procs[p], procs[parent], kinds, clone, k)
        invariant forall k :: i <= k < TABLE_SIZE ==> procs[p].handles[k].None? && procs[p].flags[k] == 0
      {
        ghost var t := procs[p];
        assert TableOk(procs[parent], kinds);
        assert SlotOk(procs[parent], kinds, i);
        if (if clone then procs[parent].handles[i].Some? else Inheritable(procs[parent].flags[i])) {
          var st := InheritInto(p, i, parent, i);
        }
        forall k | 0 <= k < i ensures Selected(procs[p], procs[parent], kinds, clone, k) {
          assert Selected(t, procs[parent], kinds, clone, k);
        }
        i := i + 1;
      }
    }

    /** object_process_cleanup: every reference of a slot is given back. */
    method Cleanup(p: nat)
      requires Valid() && p < |procs| && Shape(procs[p]) && NoCallbacks(procs[p])
      modifies `procs, `count, `balance, `removed
      ensures Valid() && procs == old(procs)[p := EmptyTable()]
      ensures forall h: Hid :: Count(count, h) == Count(old(count), h) - Holding(old(procs[p]).handles, h)
    {
      var i := 0;
      while i < TABLE_SIZE
        invariant 0 <= i <= TABLE_SIZE && Valid() && |procs| == |old(procs)| && procs == old(procs)[p := procs[p]]
        invariant Shape(procs[p]) && NoCallbacks(procs[p])
        invariant forall k :: 0 <= k < i ==> procs[p].handles[k].None?
      {
        if procs[p].handles[i].Some? {
          var st := Detach(p, i);
        }
        assert procs[p].callbacks[i] == {};
        i := i + 1;
      }
      AllClear(procs[p], kinds);
      assert procs == old(procs)[p := EmptyTable()];
      forall h: Hid ensures Count(count, h) == Count(old(count), h) - Holding(old(procs[p]).handles, h) {
        GivenBack(old(procs), p, old(count), count, others, registered, h);
      }
    }

    /** object_process_create; n is negative for all inheritable handles. */
    method ProcessCreate(p: nat, parent: nat, pairs: seq<(int, int)>, n: int) returns (st: Status, ghost k: nat)
      requires Valid() && p < |procs| && parent < |procs| && p != parent && procs[p] == EmptyTable() && n <= |pairs|
      modifies `procs, `count, `balance
      ensures Valid() && |procs| == |old(procs)| && procs == old(procs)[p := procs[p]]
      ensures Shape(procs[p]) && Shape(procs[parent])
      ensures n > 0 ==>
        Mapped(procs[p], procs[parent], pairs[..n], k) && FirstFailure(procs[parent], pairs[..n], kinds, k, st)
      ensures n == 0 ==> st == Success && procs == old(procs)
      ensures n < 0 ==> st == Success
      ensures n < 0 ==> forall i :: 0 <= i < TABLE_SIZE ==> Selected(procs[p], procs[parent], kinds, false, i)
    {
      st, k := Success, 0;
      assert TableOk(procs[parent], kinds);
      if n > 0 {
        st, k := CreateMapped(p, parent, pairs[..n]);
      } else if n < 0 {
        InheritAll(p, parent, false);
      }
    }

    /** The references of a table that no process has yet are held elsewhere. */
    ghost predicate Holds(t: Table, before: Counts)
      reads this
    {
      && TableOk(t, kinds) && NoCallbacks(t) && NoZeroes(before)
      && forall h: Hid {:trigger Count(others, h)} :: Count(others, h) == Count(before, h) + Holding(t.handles, h)
    }

    /** inherit_handle into a table that no process has yet. */
    method InheritLocal(t: Table, dest: int, p: nat, source: int, ghost before: Counts) returns (st: Status, t': Table)
      requires Valid() && p < |procs| && Holds(t, before)
      modifies `count, `others
      ensures Valid() && Shape(procs[p]) && Holds(t', before) && st == InheritStatus(t, dest, procs[p], source, kinds)
      ensures t' == if st == Success then Put(t, dest, procs[p].handles[source].value, procs[p].flags[source]) else t
      ensures st != Success ==> count == old(count) && others == old(others)
    {
      var from := procs[p];
      assert TableOk(from, kinds);
      st := InheritStatus(t, dest, from, source, kinds);
      t' := t;
      if st != Success {
        return;
      }
      var h := from.handles[source].value;
      HandleIsAlive(p, source);
      assert SlotOk(from, kinds, source);
      count, others := Increment(count, h), Increment(others, h);
      t' := Put(t, dest, h, from.flags[source]);
      PutOk(t, kinds, dest, h, from.flags[source]);
      forall x: Hid ensures Count(others, x) == Count(before, x) + Holding(t'.handles, x) {
        assert Count(old(others), x) == Count(before, x) + Holding(t.handles, x);
        HoldingUpdate(t.handles, dest, Some(h), x);
      }
      CountedSame(procs, old(count), old(others), registered, count, others, registered);
    }

    /** The second half of object_process_exec: the old table is given up, the new one attached. */
    method Swap(p: nat, thread: nat, t: Table, before: Counts)
      requires Valid() && p < |procs| && Shape(procs[p]) && OnlyThread(procs[p], thread) && Holds(t, before)
      modifies `procs, `count, `balance, `others, `removed
      ensures Valid() && procs == old(procs)[p := t] && others == before
    {
      ThreadCleanup(p, thread);
      Cleanup(p);
      ghost var between, was := procs, balance;
      procs := procs[p := t];
      AttachAll(p, t);
      NewOwner(between, count, others, registered, p, t, before);
      others := before;
      AccountedTable(between, p, t, registered, removed);
      BalancedTable(between, was, p, t, balance);
    }

    /** The attach calls for a whole table. */
    method AttachAll(p: nat, t: Table)
      requires Shape(t)
      modifies `balance
      ensures forall q: nat, h: Hid ::
        Net(balance, q, h) == Net(old(balance), q, h) + if q == p then Holding(t.handles, h) else 0
    {
      var i := 0;
      forall h: Hid ensures Holding(t.handles[..i], h) == 0 {
        HoldingNone(t.handles[..i], h);
      }
      while i < TABLE_SIZE
        invariant 0 <= i <= TABLE_SIZE
        invariant forall q: nat, h: Hid ::
          Net(balance, q, h) == Net(old(balance), q, h) + if q == p then Holding(t.handles[..i], h) else 0
      {
        assert t.handles[..i + 1][..i] == t.handles[..i];
        if t.handles[i].Some? {
          balance := Add(balance, p, t.handles[i].value, 1);
        }
        i := i + 1;
      }
      assert t.handles[..TABLE_SIZE] == t.handles;
    }

    method ExecPair(t: Table, p: nat, pairs: seq<(int, int)>, i: nat, ghost before: Counts)
      returns (st: Status, t': Table)
      requires Valid() && p < |procs| && Holds(t, before) && Mapped(t, procs[p], pairs, i) && i < |pairs|
      modifies `count, `others
      ensures Valid() && Holds(t', before) && st == PairStatus(procs[p], pairs, kinds, i)
      ensures Mapped(t', procs[p], pairs, if st == Success then i + 1 else i)
    {
      MappedStatus(t, procs[p], pairs, kinds, i);
      st, t' := InheritLocal(t, pairs[i].1, p, pairs[i].0, before);
      if st == Success {
        MappedStep(t, t', procs[p], pairs, i);
      }
    }

    /** The first half of object_process_exec with a map; a failure undoes what has been done. */
    method ExecMapped(p: nat, pairs: seq<(int, int)>) returns (st: Status, t: Table, ghost k: nat)
      requires Valid() && p < |procs|
      modifies `count, `others
      ensures Valid() && Shape(procs[p]) && FirstFailure(procs[p], pairs, kinds, k, st)
      ensures st != Success ==> count == old(count) && others == old(others)
      ensures st == Success ==> Holds(t, old(others)) && Mapped(t, procs[p], pairs, |pairs|)
    {
      t := EmptyTable();
      EmptyHolds(t, kinds);
      assert TableOk(procs[p], kinds);
      var i := 0;
      while i < |pairs|
        invariant 0 <= i <= |pairs| && Valid() && Holds(t, old(others)) && Mapped(t, procs[p], pairs, i)
        invariant forall j :: 0 <= j < i ==> PairStatus(procs[p], pairs, kinds, j) == Success
      {
        st, t := ExecPair(t, p, pairs, i, old(others));
        if st != Success {
          Rollback(t, pairs, i, old(others), old(count));
          k := i;
          return;
        }
        i := i + 1;
      }
      st, k := Success, i;
    }

    /** After a failure everything is as it was before the first pair. */
    method Rollback(t: Table, pairs: seq<(int, int)>, i: nat, ghost before: Counts, ghost was: Counts)
      requires Valid() && Holds(t, before) && i <= |pairs| && OnlyDests(t, pairs, i)
      requires Counted(procs, was, before, registered) && NoZeroes(was)
      modifies `count, `others
      ensures Valid() && others == before && count == was
    {
      Undo(t, pairs, i, before);
      forall h: Hid ensures Count(was, h) == Count(count, h) {
      }
      SameCounts(was, count);
      SameCounts(others, before);
    }

    /** Releases the handle in slot id of a table that no process has. */
    method ReleaseFrom(ghost t: Table, ghost id: nat, h: Hid, ghost before: Counts)
      requires Valid() && Holds(t, before) && id < TABLE_SIZE && t.handles[id] == Some(h)
      modifies `count, `others
      ensures Valid() && Holds(Clear(t, id), before)
    {
      HoldingOne(t.handles, id, h);
      assert Count(others, h) > 0;
      Release(h);
      ClearOk(t, kinds, id);
      forall x: Hid ensures Count(others, x) == Count(before, x) + Holding(Clear(t, id).handles, x) {
        assert Count(old(others), x) == Count(before, x) + Holding(t.handles, x);
        HoldingUpdate(t.handles, id, None, x);
      }
    }

    /** Releases the handles that were inherited for the first i pairs. */
    method Undo(t: Table, pairs: seq<(int, int)>, i: nat, ghost before: Counts)
      requires Valid() && Holds(t, before) && i <= |pairs| && OnlyDests(t, pairs, i)
      modifies `count, `others
      ensures Valid() && forall h: Hid :: Count(others, h) == Count(before, h)
    {
      var k := i;
      ghost var left := t;
      while k > 0
        invariant 0 <= k <= i && Valid() && Holds(left, before) && OnlyDests(left, pairs, k)
        invariant forall j :: 0 <= j < k ==> IsSlot(pairs[j].1) && left.handles[pairs[j].1] == t.handles[pairs[j].1]
      {
        k := k - 1;
        var h := t.handles[pairs[k].1].value;
        ReleaseFrom(left, pairs[k].1, h, before);
        DestRemoved(left, pairs, k);
        left := Clear(left, pairs[k].1);
      }
      forall h: Hid ensures Count(others, h) == Count(before, h) {
        HoldingNone(left.handles, h);
      }
    }

    /** All inheritable handles of process p in a table that no process has yet. */
    method ExecInheritable(p: nat) returns (t: Table)
      requires Valid() && p < |procs|
      modifies `count, `others
      ensures Valid() && Shape(procs[p]) && Holds(t, old(others))
      ensures forall i :: 0 <= i < TABLE_SIZE ==> Selected(t, procs[p], kinds, false, i)
    {
      t := EmptyTable();
      EmptyHolds(t, kinds);
      assert TableOk(procs[p], kinds);
      var i := 0;
      while i < TABLE_SIZE
        invariant 0 <= i <= TABLE_SIZE && Valid() && Holds(t, old(others))
        invariant forall k :: 0 <= k < i ==> Selected(t, procs[p], kinds, false, k)
        invariant forall k :: i <= k < TABLE_SIZE ==> t.handles[k].None?
      {
        ghost var was := t;
        assert SlotOk(procs[p], kinds, i);
        if Inheritable(procs[p].flags[i]) {
          var st;
          st, t := InheritLocal(t, i, p, i, old(others));
        }
        forall k | 0 <= k < i ensures Selected(t, procs[p], kinds, false, k) {
          assert Selected(was, procs[p], kinds, false, k);
        }
        i := i + 1;
      }
    }

    /** object_process_exec by the last thread of process p. */
    method ProcessExec(p: nat, thread: nat, pairs: seq<(int, int)>, n: int) returns (st: Status, ghost k: nat)
      requires Valid() && p < |procs| && Shape(procs[p]) && OnlyThread(procs[p], thread) && n <= |pairs|
      modifies `procs, `count, `balance, `others, `removed
      ensures Valid() && others == old(others)
      ensures st != Success ==> procs == old(procs) && count == old(count) && balance == old(balance)
      ensures st == Success ==> |procs| == |old(procs)| && procs == old(procs)[p := procs[p]] && Shape(procs[p])
      ensures if n > 0 then FirstFailure(old(procs[p]), pairs[..n], kinds, k, st) else st == Success
      ensures st == Success && n > 0 ==> Mapped(procs[p], old(procs[p]), pairs[..n], n)
      ensures st == Success && n == 0 ==> procs[p] == EmptyTable()
      ensures st == Success && n < 0 ==>
        forall i :: 0 <= i < TABLE_SIZE ==> Selected(procs[p], old(procs[p]), kinds, false, i)
    {
      var before := others;
      var t := EmptyTable();
      EmptyHolds(t, kinds);
      st, k := Success, 0;
      if n > 0 {
        st, t, k := ExecMapped(p, pairs[..n]);
        if st != Success {
          return;
        }
      } else if n < 0 {
        t := ExecInheritable(p);
      }
      Swap(p, thread, t, before);
    }
  }

  /** The operations of processes and of the kernel on handles. */
  datatype Op =
    | OpInit
    | OpOpen(p: nat, h: Hid, transferrable: bool, written: bool)
    | OpCreate(h: Hid, transferrable: bool)
    | OpLookup(p: nat, id: int, typed: bool)
    | OpRelease(h: Hid)
    | OpAttach(p: nat, h: Hid, written: bool)
    | OpClose(p: nat, id: int)
    | OpDuplicate(p: nat, id: int, dest: int, given: bool, written: bool)
    | OpSetFlags(p: nat, id: int, flags: nat)
    | OpCallback(p: nat, id: int, key: Key, args: Args, waits: bool, ret: Status, written: bool)
    | OpOneShot(p: nat, id: int, key: Key)
    | OpThreadEnd(p: nat, thread: nat)
    | OpSpawn(p: nat, parent: nat, pairs: seq<(int, int)>, n: int)
    | OpClone(p: nat, parent: nat)
    | OpExec(p: nat, thread: nat, pairs: seq<(int, int)>, n: int)
    | OpExit(p: nat)

  /** What an operation does; one that names no process, handle or slot does nothing. */
  ghost predicate Does(s: Kernel, op: Op, s': Kernel) {
    match op
    case OpInit => s' == s.(procs := s.procs + [EmptyTable()])
    case OpOpen(p, h, tr, written) =>
      if Has(s, p) && h !in s.kinds then Opens(s, s', p, h, tr, written) else s' == s
    case OpCreate(h, tr) =>
      s' == if h in s.kinds then s
            else s.(count := s.count[h := 1], kinds := s.kinds[h := tr], others := s.others[h := 1])
    case OpLookup(p, id, typed) =>
      s' == if Holds(s, p, id) && typed then
              var h := s.procs[p].handles[id].value;
              s.(count := Increment(s.count, h), others := Increment(s.others, h))
            else s
    case OpRelease(h) =>
      s' == if Count(s.others, h) == 0 then s
            else s.(count := Decrement(s.count, h), others := Decrement(s.others, h))
    case OpAttach(p, h, written) =>
      if Has(s, p) && h in s.count && !Full(s.procs[p]) && written then Attached(s, s', p, h, Increment(s.count, h))
      else s' == s
    case OpClose(p, id) =>
      s' == if Holds(s, p, id) then
              WithTable(s, p, Clear(s.procs[p], id)).(count := Released(s.count, s.procs[p].handles[id]))
            else s
    case OpDuplicate(p, id, dest, given, written) =>
      if Has(s, p) then Duplicates(s, s', p, id, dest, given, written) else s' == s
    case OpSetFlags(p, id, flags) =>
      s' == if Holds(s, p, id) && (Inheritable(flags) ==> Transferrable(s.kinds, s.procs[p].handles[id].value)) then
              WithTable(s, p, s.procs[p].(flags := s.procs[p].flags[id := flags]))
            else s
    case OpCallback(p, id, key, args, waits, ret, _) =>
      if Has(s, p) && ArgStatus(args) == Success then CallsBack(s, s', p, id, key, args.callback, waits, ret)
      else s' == s
    case OpOneShot(p, id, key) =>
      s' == if Has(s, p) && HasCallback(s.procs[p], id, key) then
              WithTable(s, p, WithCallbacks(s.procs[p], id, s.procs[p].callbacks[id] - {key}))
            else s
    case OpThreadEnd(p, thread) =>
      if Has(s, p) then |s'.procs| == |s.procs| && s' == WithTable(s, p, s'.procs[p])
                        && Hushed(s'.procs[p], s.procs[p], thread, TABLE_SIZE)
      else s' == s
    case OpSpawn(p, parent, pairs, n) =>
      if IsChild(s, p, parent) && n <= |pairs| then Spawns(s, s', p, parent, pairs, n) else s' == s
    case OpClone(p, parent) =>
      if IsChild(s, p, parent) then
        && Replaces(s, s', p)
        && forall i :: 0 <= i < TABLE_SIZE ==> Selected(s'.procs[p], s.procs[parent], s.kinds, true, i)
      else s' == s
    case OpExec(p, thread, pairs, n) =>
      if Has(s, p) && OnlyThread(s.procs[p], thread) && n <= |pairs| then Executes(s, s', p, pairs, n) else s' == s
    case OpExit(p) =>
      if Has(s, p) && NoCallbacks(s.procs[p]) then Replaces(s, s', p) && s'.procs[p] == EmptyTable() else s' == s
  }

  /** A new process without handles, and another one. */
  predicate IsChild(s: Kernel, p: nat, parent: nat) {
    Has(s, p) && Has(s, parent) && p != parent && s.procs[p] == EmptyTable()
  }

  /** The operation leaves a slot with a handle that has been freed. */
  predicate Breaks(s: Kernel, op: Op) {
    op.OpDuplicate? && Has(s, op.p) && Dangles(s.procs[op.p], s.count, op.id, op.dest, op.written)
  }

  /** Operations on references. */
  method ReferenceStep(o: Objects, op: Op)
    requires o.Valid() && (op.OpOpen? || op.OpCreate? || op.OpLookup? || op.OpRelease? || op.OpAttach?)
    modifies o
    ensures o.Valid() && Does(old(o.State()), op, o.State())
  {
    var st, id;
    match op {
      case OpOpen(p, h, tr, written) => if p < |o.procs| && h !in o.kinds { st, id := o.Open(p, h, tr, written); }
      case OpCreate(h, tr) => if h !in o.kinds { o.Create(h, tr); }
      case OpLookup(p, i, typed) => if p < |o.procs| { st, id := o.Lookup(p, i, typed); }
      case OpRelease(h) => if Count(o.others, h) > 0 { o.Release(h); }
      case OpAttach(p, h, written) => if p < |o.procs| && h in o.count { st, id := o.Attach(p, h, true, written); }
    }
  }

  /** Operations on slots. */
  method SlotStep(o: Objects, op: Op)
    requires o.Valid() && (op.OpClose? || op.OpSetFlags?)
    modifies o
    ensures o.Valid() && Does(old(o.State()), op, o.State())
  {
    var st;
    match op {
      case OpClose(p, i) => if p < |o.procs| { st := o.Detach(p, i); }
      case OpSetFlags(p, i, flags) => if p < |o.procs| { st := o.SetFlags(p, i, flags); }
    }
  }

  /** Operations on callbacks. */
  method CallbackStep(o: Objects, op: Op)
    requires o.Valid() && (op.OpCallback? || op.OpOneShot? || op.OpThreadEnd?)
    modifies o
    ensures o.Valid() && Does(old(o.State()), op, o.State())
  {
    var st;
    match op {
      case OpCallback(p, i, key, args, waits, ret, written) =>
        if p < |o.procs| { st := o.Callback(p, args, i, key, waits, ret, written); }
      case OpOneShot(p, i, key) =>
        if p < |o.procs| && HasCallback(o.procs[p], i, key) { o.Unregister(p, i, key); }
      case OpThreadEnd(p, thread) => if p < |o.procs| { o.ThreadCleanup(p, thread); }
    }
  }

  /** Operations on processes. */
  method ProcessStep(o: Objects, op: Op)
    requires o.Valid() && (op.OpInit? || op.OpSpawn? || op.OpClone? || op.OpExec? || op.OpExit?)
    modifies o
    ensures o.Valid() && Does(old(o.State()), op, o.State())
  {
    ghost var s := o.State();
    match op {
      case OpInit => var id := o.NewProcess();
      case OpSpawn(p, parent, pairs, n) =>
        if p < |o.procs| && parent < |o.procs| && p != parent && o.procs[p] == EmptyTable() && n <= |pairs| {
          SpawnStep(o, p, parent, pairs, n);
        }
      case OpClone(p, parent) =>
        if p < |o.procs| && parent < |o.procs| && p != parent && o.procs[p] == EmptyTable() {
          o.InheritAll(p, parent, true);
          CountsFollow(s, o.State(), o.registered, p);
        }
      case OpExec(p, thread, pairs, n) =>
        if p < |o.procs| && OnlyThread(o.procs[p], thread) && n <= |pairs| {
          ExecStep(o, p, thread, pairs, n);
        }
      case OpExit(p) =>
        if p < |o.procs| && NoCallbacks(o.procs[p]) {
          o.Cleanup(p);
          CountsFollow(s, o.State(), o.registered, p);
        }
    }
  }

  method SpawnStep(o: Objects, p: nat, parent: nat, pairs: seq<(int, int)>, n: int)
    requires o.Valid() && IsChild(o.State(), p, parent) && n <= |pairs|
    modifies o
    ensures o.Valid() && Spawns(old(o.State()), o.State(), p, parent, pairs, n)
  {
    ghost var s := o.State();
    var st;
    ghost var k;
    st, k := o.ProcessCreate(p, parent, pairs, n);
    CountsFollow(s, o.State(), o.registered, p);
    assert Inherits(o.procs[p], s.procs[parent], s.kinds, pairs, n, k, st);
  }

  method ExecStep(o: Objects, p: nat, thread: nat, pairs: seq<(int, int)>, n: int)
    requires o.Valid() && p < |o.procs| && Shape(o.procs[p]) && OnlyThread(o.procs[p], thread) && n <= |pairs|
    modifies o
    ensures o.Valid() && Executes(old(o.State()), o.State(), p, pairs, n)
  {
    ghost var s := o.State();
    var st;
    ghost var k;
    st, k := o.ProcessExec(p, thread, pairs, n);
    if n > 0 {
      forall k', st' | FirstFailure(s.procs[p], pairs[..n], s.kinds, k', st') ensures k == k' && st == st' {
        FirstFailureIsUnique(s.procs[p], pairs[..n], s.kinds, k, st, k', st');
      }
    }
    if st == Success {
      CountsFollow(s, o.State(), o.registered, p);
      assert Inherits(o.procs[p], s.procs[p], s.kinds, pairs, n, k, Success);
    }
  }

  /** One operation. */
  method Step(o: Objects, op: Op)
    requires o.Valid()
    modifies o
    ensures Does(old(o.State()), op, o.State()) && (o.Valid() <==> !Breaks(old(o.State()), op))
  {
    if op.OpOpen? || op.OpCreate? || op.OpLookup? || op.OpRelease? || op.OpAttach? {
      ReferenceStep(o, op);
    } else if op.OpClose? || op.OpSetFlags? {
      SlotStep(o, op);
    } else if op.OpCallback? || op.OpOneShot? || op.OpThreadEnd? {
      CallbackStep(o, op);
    } else if !op.OpDuplicate? {
      ProcessStep(o, op);
    } else if op.p < |o.procs| {
      var st, id := o.Duplicate(op.p, op.id, op.dest, op.given, op.written);
    }
  }

  /** Each moment follows from the one before by one operation. */
  ghost predicate IsRun(states: seq<Kernel>, ops: seq<Op>) {
    |states| == |ops| + 1 && forall i :: 0 <= i < |ops| ==> Does(states[i], ops[i], states[i + 1])
  }

  lemma RunStep(states: seq<Kernel>, ops: seq<Op>, op: Op, s: Kernel)
    requires IsRun(states, ops) && Does(states[|ops|], op, s)
    ensures IsRun(states + [s], ops + [op])
  {
  }

  /** Every run from the start, up to an operation that would break the tables. */
  method Run(ops: seq<Op>) returns (o: Objects, n: nat, ghost states: seq<Kernel>)
    ensures fresh(o) && o.Valid() && n <= |ops| && (n < |ops| ==> Breaks(o.State(), ops[n]))
    ensures IsRun(states, ops[..n]) && states[0] == Kernel([], map[], map[], map[]) && states[n] == o.State()
    ensures forall h: Hid ::
      Count(o.count, h) == Total(o.procs, h) + Live(o.procs, h) + Count(o.others, h) + Count(o.removed, h)
  {
    o := new Objects();
    n := 0;
    states := [o.State()];
    while n < |ops| && !Breaks(Kernel(o.procs, o.count, o.kinds, o.others), ops[n])
      invariant fresh(o) && o.Valid() && n <= |ops|
      invariant IsRun(states, ops[..n]) && states[0] == Kernel([], map[], map[], map[]) && states[n] == o.State()
    {
      Step(o, ops[n]);
      RunStep(states, ops[..n], ops[n], o.State());
      assert ops[..n + 1] == ops[..n] + [ops[n]];
      states, n := states + [o.State()], n + 1;
    }
    forall h: Hid
      ensures Count(o.count, h) == Total(o.procs, h) + Live(o.procs, h) + Count(o.others, h) + Count(o.removed, h)
    {
      o.References(h);
    }
  }

  /** A process opens a handle and duplicates it onto its own slot: the slot holds a freed handle. */
  method OwnSlot() returns (o: Objects)
    ensures |o.procs| == 1 && Shape(o.procs[0]) && o.procs[0].handles[0] == Some(0) && o.count == map[] && !o.Valid()
  {
    o := new Objects();
    var p := o.NewProcess();
    var st, id := o.Open(p, 0, true, true);
    st, id := o.Duplicate(p, 0, 0, true, true);
  }

  /** A callback is registered and removed and the handle closed: one reference is left, and nothing holds it. */
  method Leak() returns (o: Objects)
    ensures o.Valid() && Count(o.count, 0) == 1
    ensures Total(o.procs, 0) == 0 && Live(o.procs, 0) == 0 && Count(o.others, 0) == 0
  {
    o := new Objects();
    var p := o.NewProcess();
    var st, id := o.Open(p, 0, true, true);
    st := o.Register(p, 0, Key(0, 0), true, Success);
    o.Unregister(p, 0, Key(0, 0));
    st := o.Detach(p, 0);
    o.References(0);
  }
}
