/**
  The module loader: finishing partially loaded boot modules in the order of
  their dependencies.
 */
module Modules {
  import opened Options
  import opened Digraph

  datatype Name = Name(text: string)

  const MODULE_NAME_MAX := 16

  datatype Status = Success | MalformedImage | MissingLibrary | Other(code: nat)

  /** What relocation and init function of a module answer; they may say themselves that a library is missing. */
  datatype Result = Fine | Fails(code: nat) | Lacks

  /** The variable dep of finish_boot_module, which is not set at first. */
  datatype Pointer = Unset | Null | To(name: Name)

  datatype Module = Module(deps: seq<Name>, relocation: Result, init: Result)

  /** MODULE_LOADED, MODULE_DEPS, MODULE_INIT and MODULE_READY. */
  datatype State = Loaded | Deps | Init | Ready

  /** How loading the boot modules ends: all is well, one of the calls of fatal, or dep is read before it is set. */
  datatype Outcome =
    Done | NotAvailable(name: Name) | Circular(name: Name) | Failed(name: Name, status: Status) | Undefined(name: Name)

  type Table = map<Name, Module>

  function Graph(mods: Table): Name -> set<Name> {
    m => if m in mods then set d | d in mods[m].deps else {}
  }

  /** Every dependency is there. */
  ghost predicate Complete(mods: Table) {
    forall m, d :: m in mods && d in mods[m].deps ==> d in mods
  }

  predicate Sane(mod: Module) {
    mod.relocation.Fine? && mod.init.Fine? && forall i :: 0 <= i < |mod.deps| ==> |mod.deps[i].text| <= MODULE_NAME_MAX
  }

  predicate IsLacking(mod: Module) {
    mod.relocation.Lacks? || (mod.relocation.Fine? && mod.init.Lacks?)
  }

  /** No relocation or init function answers that a library is missing. */
  ghost predicate NoneLacks(mods: Table) {
    forall m :: m in mods ==> !IsLacking(mods[m])
  }

  /** A bad dependency, or another failure of relocation or init function. */
  predicate IsBroken(mod: Module) {
    || mod.relocation.Fails? || (mod.relocation.Fine? && mod.init.Fails?)
    || exists i :: 0 <= i < |mod.deps| && |mod.deps[i].text| > MODULE_NAME_MAX
  }

  ghost predicate NoneBroken(mods: Table) {
    forall m :: m in mods ==> !IsBroken(mods[m])
  }

  /** No module is broken. */
  ghost predicate AllSane(mods: Table) {
    forall m :: m in mods ==> Sane(mods[m])
  }

  /** How often x is a dependency of one of the modules. */
  function Refs(mods: Table, inits: seq<Name>, x: Name): nat {
    if inits == [] then 0 else
    var m := inits[|inits| - 1];
    Refs(mods, inits[..|inits| - 1], x) + if m in mods then Occurrences(mods[m].deps, x) else 0
  }

  function Occurrences(deps: seq<Name>, x: Name): nat {
    if deps == [] then 0 else
    Occurrences(deps[..|deps| - 1], x) + if deps[|deps| - 1] == x then 1 else 0
  }

  lemma {:induction false} OccurrencesCount(deps: seq<Name>, x: Name)
    ensures Occurrences(deps, x) == multiset(deps)[x]
  {
    if deps != [] {
      var k := |deps| - 1;
      OccurrencesCount(deps[..k], x);
      assert deps == deps[..k] + [deps[k]];
    }
  }

  // ---------------------------------------------------------------------
  // The invariant

  predicate Listed(list: seq<Name>, mods: Table, m: Name) {
    m in list <==> m in mods
  }

  ghost predicate IsList(list: seq<Name>, mods: Table) {
    forall m {:trigger Listed(list, mods, m)} :: Listed(list, mods, m)
  }

  /** The modules that are still to be finished. */
  function Unfinished(state: map<Name, State>): set<Name> {
    set m | m in state && state[m] == Loaded
  }

  lemma OneLess(state: map<Name, State>, m: Name)
    requires m in state && state[m] == Loaded
    ensures Unfinished(state[m := Deps]) < Unfinished(state)
  {
    assert Unfinished(state[m := Deps]) == Unfinished(state) - {m} && m in Unfinished(state);
  }

  /** On the stack means Deps, and done means Ready. */
  predicate StateOf(state: map<Name, State>, stack: seq<Name>, done: seq<Name>, m: Name) {
    m in state && state[m] != Init && (state[m] == Deps <==> m in stack) && (state[m] == Ready <==> m in done)
  }

  ghost predicate States(mods: Table, state: map<Name, State>, stack: seq<Name>, done: seq<Name>) {
    && state.Keys == mods.Keys
    && (forall m {:trigger StateOf(state, stack, done, m)} :: m in mods ==> StateOf(state, stack, done, m))
    && (forall m :: m in stack ==> m in mods)
  }

  lemma Started(mods: Table, state: map<Name, State>, stack: seq<Name>, done: seq<Name>, m: Name)
    requires States(mods, state, stack, done) && m in mods && state[m] == Loaded
    ensures m !in stack && States(mods, state[m := Deps], stack + [m], done)
  {
    assert StateOf(state, stack, done, m);
    forall x | x in mods ensures StateOf(state[m := Deps], stack + [m], done, x) {
      assert StateOf(state, stack, done, x);
    }
  }

  lemma Finished(mods: Table, state: map<Name, State>, stack: seq<Name>, done: seq<Name>, m: Name)
    requires States(mods, state, stack + [m], done) && m in mods && m !in stack
    ensures m !in done && States(mods, state[m := Ready], stack, done + [m])
  {
    assert StateOf(state, stack + [m], done, m);
    forall x | x in mods ensures StateOf(state[m := Ready], stack, done + [m], x) {
      assert StateOf(state, stack + [m], done, x);
    }
  }

  predicate FirstTime(done: seq<Name>, i: nat)
    requires i < |done|
  {
    done[i] !in done[..i]
  }

  /** Each module is done once, and after its dependencies. */
  ghost predicate Ordered(mods: Table, done: seq<Name>) {
    Topological(Graph(mods), done) && forall i {:trigger FirstTime(done, i)} :: 0 <= i < |done| ==> FirstTime(done, i)
  }

  lemma OrderedStep(mods: Table, done: seq<Name>, m: Name)
    requires Ordered(mods, done) && m in mods && m !in done && forall d :: d in mods[m].deps ==> d in done
    ensures Ordered(mods, done + [m])
  {
    TopologicalStep(Graph(mods), done, m);
    forall i | 0 <= i < |done + [m]| ensures FirstTime(done + [m], i) {
      if i < |done| {
        assert FirstTime(done, i) && (done + [m])[..i] == done[..i];
      } else {
        assert (done + [m])[..i] == done;
      }
    }
  }

  /** The references are those of the initialised modules. */
  ghost predicate Counted(mods: Table, counts: map<Name, nat>, count: map<Name, nat>, inits: seq<Name>) {
    && count.Keys == mods.Keys && counts.Keys == mods.Keys
    && forall m :: m in mods ==> count[m] == counts[m] + Refs(mods, inits, m)
  }

  lemma CountedStep(mods: Table, counts: map<Name, nat>, count: map<Name, nat>, count': map<Name, nat>,
                    inits: seq<Name>, m: Name)
    requires Counted(mods, counts, count, inits) && m in mods && count'.Keys == mods.Keys
    requires forall x :: x in mods ==> count'[x] == count[x] + Occurrences(mods[m].deps, x)
    ensures Counted(mods, counts, count', inits + [m])
  {
  }

  /** Whatever happens, a module is in progress exactly when it is on the stack. */
  ghost predicate InProgress(mods: Table, state: map<Name, State>, stack: seq<Name>) {
    && state.Keys == mods.Keys && IsPath(Graph(mods), stack)
    && forall m {:trigger Busy(state, m)} :: m in mods ==> (Busy(state, m) <==> m in stack)
  }

  predicate Busy(state: map<Name, State>, m: Name)
    requires m in state
  {
    state[m] == Deps || state[m] == Init
  }

  lemma StatesInProgress(mods: Table, state: map<Name, State>, stack: seq<Name>, done: seq<Name>)
    requires States(mods, state, stack, done) && IsPath(Graph(mods), stack)
    ensures InProgress(mods, state, stack)
  {
    forall m | m in mods ensures Busy(state, m) <==> m in stack {
      assert StateOf(state, stack, done, m);
    }
  }

  lemma StillBusy(mods: Table, state: map<Name, State>, stack: seq<Name>, m: Name)
    requires InProgress(mods, state, stack) && m in mods && m in stack
    ensures InProgress(mods, state[m := Init], stack)
  {
    forall x | x in mods ensures Busy(state[m := Init], x) <==> x in stack {
      assert Busy(state, x) <==> x in stack;
    }
  }

  /** The init function of the last module on the stack has been called. */
  lemma InitCalled(mods: Table, state: map<Name, State>, stack: seq<Name>, done: seq<Name>, m: Name)
    requires States(mods, state, stack + [m], done) && Ordered(mods, done) && m in mods && m !in stack
    requires forall d :: d in mods[m].deps ==> d in mods && state[d] == Ready
    ensures Ordered(mods, done + [m])
  {
    Finished(mods, state, stack, done, m);
    forall d | d in mods[m].deps ensures d in done {
      assert StateOf(state, stack + [m], done, d);
    }
    OrderedStep(mods, done, m);
  }

  ghost predicate SaneInits(mods: Table, inits: seq<Name>) {
    forall m :: m in inits ==> m in mods && Sane(mods[m])
  }

  /** What a call of fatal tells about the modules. */
  ghost predicate Explained(mods: Table, r: Outcome) {
    match r
    case Done => true
    case NotAvailable(_) => !Complete(mods)
    case Circular(d) => Cyclic(Graph(mods), mods.Keys) || exists m :: m in mods && Misleads(mods[m], d)
    case Failed(m, _) => m in mods && IsBroken(mods[m])
    case Undefined(m) => m in mods && IsLacking(mods[m])
  }

  /** A module that lacks a library is taken for one with dependency d in a cycle. */
  predicate Misleads(mod: Module, d: Name) {
    IsLacking(mod) && d in mod.deps
  }

  lemma Missing(mods: Table, m: Name, d: Name)
    requires m in mods && d in mods[m].deps && d !in mods
    ensures Explained(mods, NotAvailable(d))
  {
  }

  lemma Broken(mods: Table, m: Name, status: Status)
    requires m in mods && IsBroken(mods[m])
    ensures Explained(mods, Failed(m, status))
  {
  }

  /** A dependency that is neither loaded nor ready is on the stack. */
  lemma BackEdge(mods: Table, state: map<Name, State>, stack: seq<Name>, done: seq<Name>, m: Name, d: Name)
    requires States(mods, state, stack + [m], done) && IsPath(Graph(mods), stack + [m])
    requires m in mods && d in mods[m].deps && d in mods && state[d] != Loaded && state[d] != Ready
    ensures Explained(mods, Circular(d))
  {
    var here := stack + [m];
    assert StateOf(state, here, done, d);
    LongerPath(Graph(mods), here, d);
    Lasso(Graph(mods), mods.Keys, here, d);
  }

  /** When everything is done, there is nothing wrong with the modules. */
  lemma AllDone(mods: Table, builtin: seq<Name>, inits: seq<Name>)
    requires Ordered(mods, builtin + inits) && SaneInits(mods, builtin) && SaneInits(mods, inits)
    requires forall m :: m in mods ==> m in builtin + inits
    ensures Complete(mods) && AllSane(mods) && !Cyclic(Graph(mods), mods.Keys)
  {
    var done := builtin + inits;
    TopologicalHasNoCycle(Graph(mods), done, mods.Keys);
    forall m, d | m in mods && d in mods[m].deps ensures d in mods {
      EdgeDescends(Graph(mods), done, m, d);
    }
  }

  ghost predicate Good(mods: Table, builtin: seq<Name>, counts: map<Name, nat>, state: map<Name, State>,
                       count: map<Name, nat>, inits: seq<Name>, stack: seq<Name>)
  {
    && States(mods, state, stack, builtin + inits) && IsPath(Graph(mods), stack)
    && Ordered(mods, builtin + inits) && SaneInits(mods, inits) && Counted(mods, counts, count, inits)
  }

  /** The last module on the stack has been initialised. */
  lemma Completed(mods: Table, builtin: seq<Name>, counts: map<Name, nat>, state: map<Name, State>,
                  count: map<Name, nat>,
                  inits: seq<Name>, stack: seq<Name>, m: Name, count': map<Name, nat>)
    requires Good(mods, builtin, counts, state, count, inits, stack + [m]) && m in mods && m !in stack && Sane(mods[m])
    requires forall d :: d in mods[m].deps ==> d in mods && state[d] == Ready
    requires count'.Keys == mods.Keys && forall x :: x in mods ==> count'[x] == count[x] + Occurrences(mods[m].deps, x)
    ensures Good(mods, builtin, counts, state[m := Ready], count', inits + [m], stack)
  {
    var done := builtin + inits;
    Finished(mods, state, stack, done, m);
    forall d | d in mods[m].deps ensures d in done {
      assert StateOf(state, stack + [m], done, d);
    }
    OrderedStep(mods, done, m);
    ShorterPath(Graph(mods), stack, m);
    CountedStep(mods, counts, count, count', inits, m);
    assert builtin + (inits + [m]) == done + [m];
  }

  function Answer(r: Result): Status {
    match r
    case Fine => Success
    case Fails(code) => Other(code)
    case Lacks => MissingLibrary
  }

  predicate AllReady(state: map<Name, State>, deps: seq<Name>) {
    forall i :: 0 <= i < |deps| ==> deps[i] in state && state[deps[i]] == Ready
  }

  /** What finish_boot_module remembers in dep: nothing, or the dependency that it has finished last. */
  ghost predicate Remembered(mods: Table, before: map<Name, State>, state: map<Name, State>, m: Name, dep: Pointer)
    requires m in mods
  {
    match dep
    case Unset => state == before
    case Null => false
    case To(d) => d in mods[m].deps && d in state && state[d] == Ready && d in before && before[d] != Ready
  }

  /**
    The outcome for a module that lacks a library although its dependencies
    are ready: a cycle is reported if one of them had to be finished first, and
    a variable is read that was not set if none had to.
   */
  ghost predicate Blames(mods: Table, before: map<Name, State>, m: Name, r: Outcome, here: bool)
    requires m in mods
  {
    && (r == Undefined(m) ==> AllReady(before, mods[m].deps))
    && (r.Circular? && here ==> !AllReady(before, mods[m].deps))
  }

  lemma NoMore(state: map<Name, State>, m: Name)
    requires m in state
    ensures Unfinished(state[m := Ready]) <= Unfinished(state)
  {
  }

  /** What was ready still is. */
  predicate Onward(before: map<Name, State>, state: map<Name, State>) {
    forall x :: x in before && before[x] == Ready ==> x in state && state[x] == Ready
  }

  lemma MoreReady(mods: Table, before: map<Name, State>, state: map<Name, State>, stack: seq<Name>,
                  builtin: seq<Name>, inits: seq<Name>, inits': seq<Name>)
    requires States(mods, before, stack, builtin + inits) && States(mods, state, stack, builtin + inits')
    requires inits <= inits'
    ensures Onward(before, state)
  {
    forall x | x in before && before[x] == Ready ensures x in state && state[x] == Ready {
      assert StateOf(before, stack, builtin + inits, x) && StateOf(state, stack, builtin + inits', x);
      assert inits' == inits + inits'[|inits|..];
    }
  }

  lemma NotReady(state: map<Name, State>, deps: seq<Name>, d: Name)
    requires d in deps && !(d in state && state[d] == Ready)
    ensures !AllReady(state, deps)
  {
    var i :| 0 <= i < |deps| && deps[i] == d;
  }

  lemma Misled(mods: Table, m: Name, d: Name)
    requires m in mods && Misleads(mods[m], d)
    ensures Explained(mods, Circular(d))
  {
  }

  lemma StartedBlames(mods: Table, before: map<Name, State>, m: Name, r: Outcome, here: bool)
    requires m in mods && m in before && before[m] == Loaded && Blames(mods, before[m := Deps], m, r, here)
    ensures Blames(mods, before, m, r, here)
  {
  }

  class Loader {
    const mods: Table
    const list: seq<Name>             // module_list
    var state: map<Name, State>
    var count: map<Name, nat>
    var inits: seq<Name>              // the init functions in the order in which they were called
    ghost const builtin: seq<Name>    // modules that are ready before: the kernel
    ghost const counts: map<Name, nat>

    /** The modules in state Deps are those on the stack, and what is ready became so after its dependencies. */
    ghost predicate Valid(stack: seq<Name>)
      reads this
    {
      IsList(list, mods) && Good(mods, builtin, counts, state, count, inits, stack)
    }

    /** After the first stage of module_init: the kernel is ready, all boot modules are loaded. */
    constructor (mods: Table, list: seq<Name>, kernel: Name)
      requires IsList(list, mods) && kernel in mods && mods[kernel] == Module([], Fine, Fine)
      ensures this.mods == mods && this.list == list && inits == [] && Valid([]) && SaneInits(mods, builtin)
      ensures builtin == [kernel]
    {
      this.mods, this.list, inits, builtin := mods, list, [], [kernel];
      state := map m | m in mods :: if m == kernel then Ready else Loaded;
      count := map m | m in mods :: if m == kernel then 1 else 0;
      counts := map m | m in mods :: if m == kernel then 1 else 0;
      new;
      assert [kernel] + [] == [kernel];
      assert forall i :: 0 <= i < 1 ==> After(Graph(mods), [kernel], i) && FirstTime([kernel], i);
      assert forall i :: Hop(Graph(mods), [], i);
    }

    /** module_find. */
    method Find(name: Name) returns (m: Option<Name>)
      requires IsList(list, mods)
      ensures m == if name in mods then Some(name) else None
    {
      var i := 0;
      assert Listed(list, mods, name);
      while i < |list|
        invariant 0 <= i <= |list|
        invariant name !in list[..i]
      {
        if list[i] == name {
          return Some(list[i]);
        }
        i := i + 1;
      }
      assert list[..i] == list;
      return None;
    }

    /** The first loop of finish_module: the first dependency that is not ready. */
    method CheckDeps(m: Name) returns (ret: Status, name: Name, dep: Option<Name>)
      requires m in mods && state.Keys == mods.Keys && IsList(list, mods)
      ensures ret in {Success, MalformedImage, MissingLibrary}
      ensures ret == Success ==> forall d ::
        d in mods[m].deps ==> d in mods && state[d] == Ready && |d.text| <= MODULE_NAME_MAX
      ensures ret == MalformedImage ==> IsBroken(mods[m])
      ensures ret == MissingLibrary ==> name in mods[m].deps && dep == (if name in mods then Some(name) else None)
      ensures ret == MissingLibrary && dep.Some? ==> state[name] != Ready
    {
      var deps := mods[m].deps;
      var i := 0;
      name, dep := m, None;
      while i < |deps|
        invariant 0 <= i <= |deps|
        invariant forall d :: d in deps[..i] ==> d in mods && state[d] == Ready && |d.text| <= MODULE_NAME_MAX
      {
        if |deps[i].text| > MODULE_NAME_MAX {
          return MalformedImage, name, None;
        }
        dep := Find(deps[i]);
        if dep.None? || state[dep.value] != Ready {
          return MissingLibrary, deps[i], dep;
        }
        i := i + 1;
      }
      assert deps[..i] == deps;
      ret := Success;
    }

    /** The last loop of finish_module: a reference to every dependency. */
    method AddReferences(m: Name)
      requires m in mods && count.Keys == mods.Keys && forall d :: d in mods[m].deps ==> d in mods
      modifies `count
      ensures count.Keys == mods.Keys
      ensures forall x :: x in mods ==> count[x] == old(count[x]) + Occurrences(mods[m].deps, x)
    {
      var deps := mods[m].deps;
      var i := 0;
      while i < |deps|
        invariant 0 <= i <= |deps| && count.Keys == mods.Keys
        invariant forall x :: x in mods ==> count[x] == old(count[x]) + Occurrences(deps[..i], x)
      {
        count := count[deps[i] := count[deps[i]] + 1];
        assert deps[..i + 1][..i] == deps[..i];
        i := i + 1;
      }
      assert deps[..i] == deps;
    }

    /** finish_module; name and dep are set only when a dependency is not ready. */
    method FinishModule(m: Name, name: Name, dep: Pointer, ghost stack: seq<Name>)
      returns (ret: Status, name': Name, dep': Pointer, ghost unmet: bool)
      requires Valid(stack + [m]) && m in mods && m !in stack
      modifies `state, `count, `inits
      ensures ret == Success ==> Valid(stack) && m in inits && Unfinished(state) <= Unfinished(old(state))
      ensures ret == Success ==> state == old(state)[m := Ready] && inits == old(inits) + [m]
      ensures unmet ==> ret == MissingLibrary && Valid(stack + [m]) && state == old(state) && inits == old(inits)
      ensures unmet ==> name' in mods[m].deps && dep' == (if name' in mods then To(name') else Null)
      ensures unmet && dep'.To? ==> state[name'] != Ready
      ensures !unmet ==> name' == name && dep' == dep
      ensures ret == MissingLibrary && !unmet ==> IsLacking(mods[m]) && AllReady(old(state), mods[m].deps)
      ensures ret != Success && ret != MissingLibrary ==> IsBroken(mods[m])
      ensures ret != Success ==> InProgress(mods, state, stack + [m])
      ensures ret != Success ==> forall x :: x in mods && x != m ==> state[x] == old(state)[x]
      ensures Ordered(mods, builtin + inits) && (inits == old(inits) || inits == old(inits) + [m])
    {
      StatesInProgress(mods, state, stack + [m], builtin + inits);
      name', dep', unmet := name, dep, false;
      var missing, found;
      ret, missing, found := CheckDeps(m);
      if ret == MissingLibrary {
        name', dep', unmet := missing, if found.Some? then To(found.value) else Null, true;
        return;
      }
      if ret != Success {
        return;
      }
      if !mods[m].relocation.Fine? {
        ret := Answer(mods[m].relocation);
        return;
      }
      InitCalled(mods, state, stack, builtin + inits, m);
      ret := Initialise(m);
      assert builtin + inits == builtin + old(inits) + [m];
      StillBusy(mods, old(state), stack + [m], m);
      if ret == Success {
        Completed(mods, builtin, counts, old(state), old(count), old(inits), stack, m, count);
        NoMore(old(state), m);
      }
    }

    /** The end of finish_module, when all dependencies are ready. */
    method Initialise(m: Name) returns (ret: Status)
      requires m in mods && m in state && count.Keys == mods.Keys && forall d :: d in mods[m].deps ==> d in mods
      modifies `state, `count, `inits
      ensures ret == Answer(mods[m].init)
      ensures inits == old(inits) + [m] && state == old(state)[m := if ret == Success then Ready else Init]
      ensures ret == Success ==> count.Keys == mods.Keys
      ensures ret == Success ==> forall x :: x in mods ==> count[x] == old(count[x]) + Occurrences(mods[m].deps, x)
    {
      state := state[m := Init];
      inits := inits + [m];
      ret := Answer(mods[m].init);
      if ret != Success {
        assert state == old(state)[m := Init];
        return;
      }
      AddReferences(m);
      state := state[m := Ready];
      assert state == old(state)[m := Ready];
    }

    /** finish_boot_module, called for a dependency of the last module on the stack. */
    method FinishBoot(m: Name, ghost stack: seq<Name>) returns (r: Outcome, ghost at: seq<Name>)
      requires Valid(stack) && m in mods && state[m] == Loaded && (stack != [] ==> m in Graph(mods)(stack[|stack| - 1]))
      modifies `state, `count, `inits
      ensures r.Done? ==>
        Valid(stack) && m in inits && old(inits) <= inits && Unfinished(state) < old(Unfinished(state))
      ensures Explained(mods, r) && Blames(mods, old(state), m, r, at == stack + [m])
      ensures r.Undefined? ==> r.name in Unfinished(old(state))
      ensures Ordered(mods, builtin + inits) && old(inits) <= inits
      ensures !r.Done? ==> stack + [m] <= at && InProgress(mods, state, at)
      decreases Unfinished(state), 0
    {
      LongerPath(Graph(mods), stack, m);
      Started(mods, state, stack, builtin + inits, m);
      state := state[m := Deps];   // finish_module sets it; it stays so until the module is ready
      OneLess(old(state), m);
      r, at := Retry(m, stack);
      assert m in Unfinished(old(state));
      StartedBlames(mods, old(state), m, r, at == stack + [m]);
    }

    /** The loop of finish_boot_module: as long as a dependency is missing, finish that one and try again. */
    method Retry(m: Name, ghost stack: seq<Name>) returns (r: Outcome, ghost at: seq<Name>)
      requires Valid(stack + [m]) && m in mods && m !in stack
      modifies `state, `count, `inits
      ensures r.Done? ==>
        Valid(stack) && m in inits && old(inits) <= inits && Unfinished(state) <= old(Unfinished(state))
      ensures Explained(mods, r) && Blames(mods, old(state), m, r, at == stack + [m])
      ensures r.Undefined? ==> r.name == m || r.name in Unfinished(old(state))
      ensures Ordered(mods, builtin + inits) && old(inits) <= inits
      ensures !r.Done? ==> stack + [m] <= at && InProgress(mods, state, at)
      decreases Unfinished(state), 2
    {
      ghost var here := stack + [m];
      assert StateOf(state, here, builtin + inits, m);
      var name, dep := m, Unset;
      while true
        invariant Valid(here) && Unfinished(state) <= old(Unfinished(state)) && old(inits) <= inits
        invariant Remembered(mods, old(state), state, m, dep) && Onward(old(state), state)
        decreases Unfinished(state)
      {
        var stop;
        stop, name, dep := Attempt(m, name, dep, stack, old(state));
        if stop.Some? {
          return stop.value, here;
        }
        r, at := FinishDep(name, m, stack, old(state));
        if !r.Done? {
          return;
        }
      }
    }

    /** Finishes a dependency of the last module on the stack. */
    method FinishDep(d: Name, m: Name, ghost stack: seq<Name>, ghost before: map<Name, State>)
      returns (r: Outcome, ghost at: seq<Name>)
      requires Valid(stack + [m]) && m in mods && d in mods && d in mods[m].deps && state[d] == Loaded
      requires before.Keys == mods.Keys && Onward(before, state)
      modifies `state, `count, `inits
      ensures r.Done? ==> Valid(stack + [m]) && Unfinished(state) < old(Unfinished(state))
      ensures r.Done? ==> Remembered(mods, before, state, m, To(d)) && Onward(before, state)
      ensures Explained(mods, r) && Ordered(mods, builtin + inits) && old(inits) <= inits
      ensures !r.Done? ==> stack + [m] <= at && at != stack + [m] && InProgress(mods, state, at)
      ensures r.Undefined? ==> r.name in Unfinished(old(state))
      decreases Unfinished(state), 1
    {
      ghost var here := stack + [m];
      r, at := FinishBoot(d, here);
      if r.Done? {
        assert StateOf(state, here, builtin + inits, d);
        MoreReady(mods, old(state), state, here, builtin, old(inits), inits);
      }
    }

    /** One call of finish_module in that loop, and what follows from it: an outcome, or a dependency to finish. */
    method Attempt(m: Name, name: Name, dep: Pointer, ghost stack: seq<Name>, ghost before: map<Name, State>)
      returns (stop: Option<Outcome>, name': Name, dep': Pointer)
      requires Valid(stack + [m]) && m in mods && m !in stack
      requires Remembered(mods, before, state, m, dep) && Onward(before, state)
      modifies `state, `count, `inits
      ensures stop.None? ==> Valid(stack + [m]) && state == old(state) && inits == old(inits)
      ensures stop.None? ==> name' in mods && name' in mods[m].deps && dep' == To(name') && state[name'] == Loaded
      ensures stop == Some(Done) ==> Valid(stack) && m in inits && Unfinished(state) <= Unfinished(old(state))
      ensures stop.Some? ==> Explained(mods, stop.value) && Blames(mods, before, m, stop.value, true)
      ensures stop.Some? && stop.value.Undefined? ==> stop.value.name == m
      ensures stop.Some? && stop != Some(Done) ==> InProgress(mods, state, stack + [m])
      ensures Ordered(mods, builtin + inits) && old(inits) <= inits
    {
      var ret;
      ghost var unmet;
      assert StateOf(state, stack + [m], builtin + inits, m);
      ret, name', dep', unmet := FinishModule(m, name, dep, stack);
      stop := None;
      if ret == MissingLibrary {
        if dep'.Unset? {
          stop := Some(Undefined(m));
        } else if dep'.Null? {
          Missing(mods, m, name');
          stop := Some(NotAvailable(name'));
        } else if state[dep'.name] != Loaded {
          if unmet {
            BackEdge(mods, state, stack, builtin + inits, m, name');
          } else {
            Misled(mods, m, dep'.name);
          }
          NotReady(before, mods[m].deps, dep'.name);
          stop := Some(Circular(dep'.name));
        }
      } else if ret != Success {
        Broken(mods, m, ret);
        stop := Some(Failed(m, ret));
      } else {
        stop := Some(Done);
      }
    }

    /** The second loop of module_init. */
    method InitAll() returns (r: Outcome, ghost at: seq<Name>)
      requires Valid([]) && inits == [] && SaneInits(mods, builtin)
      modifies `state, `count, `inits
      ensures r.Done? ==> Valid([]) && forall m :: m in mods ==> state[m] == Ready
      ensures r.Done? <==> Complete(mods) && AllSane(mods) && !Cyclic(Graph(mods), mods.Keys)
      ensures Complete(mods) && AllSane(mods) ==> (r.Circular? <==> Cyclic(Graph(mods), mods.Keys))
      ensures Explained(mods, r)
      ensures NoneLacks(mods) ==> !r.Undefined? && (r.Circular? ==> Cyclic(Graph(mods), mods.Keys))
      ensures Complete(mods) && NoneBroken(mods) && !Cyclic(Graph(mods), mods.Keys) ==>
        (r.Done? <==> NoneLacks(mods)) && (r.Done? || r.Circular? || r.Undefined?)
      ensures Ordered(mods, builtin + inits)
      ensures InProgress(mods, state, at) && (r.Done? <==> at == [])
    {
      at := [];
      var i := 0;
      while i < |list|
        invariant 0 <= i <= |list| && Valid([])
        invariant forall k :: 0 <= k < i ==> list[k] in builtin + inits
      {
        assert Listed(list, mods, list[i]) && StateOf(state, [], builtin + inits, list[i]);
        if state[list[i]] != Ready {
          r, at := FinishBoot(list[i], []);
          if !r.Done? {
            return;
          }
        }
        i := i + 1;
      }
      forall m | m in mods ensures m in builtin + inits {
        assert Listed(list, mods, m);
      }
      forall m | m in mods ensures state[m] == Ready {
        assert StateOf(state, [], builtin + inits, m);
      }
      AllDone(mods, builtin, inits);
      StatesInProgress(mods, state, [], builtin + inits);
      r, at := Done, [];
    }
  }

  const KERNEL := Name("kernel")

  const LACKING := Name("a")

  const NEEDED := Name("b")

  /** Module a depends on b, and its init function answers that a library is missing. */
  function LackingTable(): Table {
    map[KERNEL := Module([], Fine, Fine), LACKING := Module([NEEDED], Fine, Lacks), NEEDED := Module([], Fine, Fine)]
  }

  lemma LackingTableIsAcyclic()
    ensures KERNEL != LACKING && KERNEL != NEEDED && LACKING != NEEDED
    ensures var mods := LackingTable(); Complete(mods) && NoneBroken(mods) && !Cyclic(Graph(mods), mods.Keys)
  {
    assert KERNEL.text[0] == 'k' && LACKING.text[0] == 'a' && NEEDED.text[0] == 'b';
    var mods := LackingTable();
    OrderedStep(mods, [], KERNEL);
    OrderedStep(mods, [] + [KERNEL], NEEDED);
    OrderedStep(mods, [] + [KERNEL] + [NEEDED], LACKING);
    TopologicalHasNoCycle(Graph(mods), [] + [KERNEL] + [NEEDED] + [LACKING], mods.Keys);
  }

  /** There is no cycle in these modules, but loading a first ends with the report of one. */
  method MisledByInit() returns (r: Outcome)
    ensures !Cyclic(Graph(LackingTable()), LackingTable().Keys) && r.Circular?
  {
    LackingTableIsAcyclic();
    var mods, list := LackingTable(), [KERNEL, LACKING, NEEDED];
    forall m ensures Listed(list, mods, m) {
    }
    var loader := new Loader(mods, list, KERNEL);
    assert StateOf(loader.state, [], loader.builtin + loader.inits, LACKING);
    assert StateOf(loader.state, [], loader.builtin + loader.inits, NEEDED);
    ghost var at;
    r, at := loader.FinishBoot(LACKING, []);
    assert mods[LACKING].deps[0] == NEEDED;
  }
}
