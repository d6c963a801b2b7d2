/**
  sym_check_deps: the search for recursive dependencies, on symbols outside of
  choice groups.
 */
module KconfigCycles {
  import opened Options
  import opened Digraph
  import opened KconfigExpr

  datatype PropKind = Prompt | Comment | Menu | Default | Choice | Select | Range | Env

  datatype Prop = Prop(kind: PropKind, visible: Option<Expr>, expr: Option<Expr>)

  /** What is known about each symbol. */
  datatype Table = Table(revDep: map<Symbol, Expr>, props: map<Symbol, seq<Prop>>)

  /** The symbols of an expression. */
  function Uses(e: Expr): set<Symbol> {
    match e
    case Symb(s) => {s}
    case Not(a) => Uses(a)
    case Junct(_, l, r) => Uses(l) + Uses(r)
    case Equal(l, r) => {l, r}
    case Unequal(l, r) => {l, r}
  }

  function UsesOpt(e: Option<Expr>): set<Symbol> {
    if e.Some? then Uses(e.value) else {}
  }

  function PropUses(p: Prop): set<Symbol> {
    if p.kind.Choice? || p.kind.Select? then {}
    else if p.kind.Default? then UsesOpt(p.visible) + UsesOpt(p.expr)
    else UsesOpt(p.visible)
  }

  function PropsUse(ps: seq<Prop>): set<Symbol> {
    if ps == [] then {} else PropUses(ps[0]) + PropsUse(ps[1..])
  }

  function Props(t: Table, s: Symbol): seq<Prop> {
    if s in t.props then t.props[s] else []
  }

  function RevDep(t: Table, s: Symbol): Option<Expr> {
    if s in t.revDep then Some(t.revDep[s]) else None
  }

  /** The symbols that s depends on. */
  function Deps(t: Table, s: Symbol): set<Symbol> {
    UsesOpt(RevDep(t, s)) + PropsUse(Props(t, s))
  }

  function Graph(t: Table): Symbol -> set<Symbol> {
    s => Deps(t, s)
  }

  /** From one of the roots the dependencies lead into a cycle. */
  ghost predicate Recursive(t: Table, roots: set<Symbol>) {
    Cyclic(Graph(t), roots)
  }

  // ---------------------------------------------------------------------
  // What the dependencies are

  /** Symbol a is replaced by b. */
  function Rename(e: Expr, a: Symbol, b: Symbol): Expr {
    match e
    case Symb(s) => Symb(if s == a then b else s)
    case Not(x) => Not(Rename(x, a, b))
    case Junct(op, l, r) => Junct(op, Rename(l, a, b), Rename(r, a, b))
    case Equal(l, r) => Equal(if l == a then b else l, if r == a then b else r)
    case Unequal(l, r) => Unequal(if l == a then b else l, if r == a then b else r)
  }

  /** Uses has exactly the symbols that occur in the expression. */
  lemma {:induction false} UsesOccur(e: Expr, a: Symbol, b: Symbol)
    requires a != b
    ensures a in Uses(e) <==> Rename(e, a, b) != e
  {
    match e
    case Not(x) => UsesOccur(x, a, b);
    case Junct(_, l, r) =>
      UsesOccur(l, a, b);
      UsesOccur(r, a, b);
    case _ =>
  }

  /** The two assignments agree on the symbols. */
  ghost predicate Agree(symbols: set<Symbol>, env: KconfigExpr.Env, env': KconfigExpr.Env) {
    forall s :: s in symbols ==> TriOf(env, s) == TriOf(env', s) && StrOf(env, s) == StrOf(env', s)
  }

  /** The symbols of an expression decide its value. */
  lemma {:induction false} UsesDecide(e: Expr, env: KconfigExpr.Env, env': KconfigExpr.Env)
    requires Agree(Uses(e), env, env')
    ensures Val(e, env) == Val(e, env')
  {
    match e
    case Not(x) => UsesDecide(x, env, env');
    case Junct(_, l, r) =>
      UsesDecide(l, env, env');
      UsesDecide(r, env, env');
    case _ =>
  }

  /** An expression that a symbol depends on: its reverse dependency, a condition, or a default value. */
  predicate Counts(t: Table, s: Symbol, e: Expr) {
    || RevDep(t, s) == Some(e)
    || exists k :: 0 <= k < |Props(t, s)| && PropCounts(Props(t, s)[k], e)
  }

  /** Choices and selects do not count. */
  predicate PropCounts(p: Prop, e: Expr) {
    p.kind !in {Choice, Select} && (p.visible == Some(e) || (p.kind == Default && p.expr == Some(e)))
  }

  lemma {:induction false} PropsUseCounted(ps: seq<Prop>, d: Symbol) returns (k: nat, e: Expr)
    requires d in PropsUse(ps)
    ensures k < |ps| && PropCounts(ps[k], e) && d in Uses(e)
  {
    if d in PropUses(ps[0]) {
      k := 0;
      e := if d in UsesOpt(ps[0].visible) then ps[0].visible.value else ps[0].expr.value;
    } else {
      k, e := PropsUseCounted(ps[1..], d);
      k := k + 1;
    }
  }

  /** A symbol depends on exactly the symbols that occur in one of these expressions. */
  lemma DepsOccur(t: Table, s: Symbol, d: Symbol)
    ensures d in Deps(t, s) <==> exists e :: Counts(t, s, e) && d in Uses(e)
  {
    if d in Deps(t, s) {
      if d in UsesOpt(RevDep(t, s)) {
        assert Counts(t, s, RevDep(t, s).value);
      } else {
        var k, e := PropsUseCounted(Props(t, s), d);
        assert Counts(t, s, e);
      }
    }
    if e :| Counts(t, s, e) && d in Uses(e) {
      if RevDep(t, s) != Some(e) {
        var k :| 0 <= k < |Props(t, s)| && PropCounts(Props(t, s)[k], e);
        PropUse(Props(t, s), k);
      }
    }
  }

  /** The dependencies of a symbol decide the value of each of these expressions. */
  lemma DepsDecide(t: Table, s: Symbol, e: Expr, env: KconfigExpr.Env, env': KconfigExpr.Env)
    requires Counts(t, s, e) && Agree(Deps(t, s), env, env')
    ensures Val(e, env) == Val(e, env')
  {
    forall d | d in Uses(e) ensures d in Deps(t, s) {
      DepsOccur(t, s, d);
    }
    UsesDecide(e, env, env');
  }

  /** Two symbols that depend on each other's negation are a recursive dependency. */
  lemma NegatedCycle(a: Symbol, b: Symbol)
    requires a != b
    ensures var t := Table(map[], map[a := [Prop(Prompt, Some(Not(Symb(b))), None)],
                                      b := [Prop(Prompt, Some(Not(Symb(a))), None)]]);
      Recursive(t, {a}) && Recursive(t, {b})
  {
    var t := Table(map[], map[a := [Prop(Prompt, Some(Not(Symb(b))), None)],
                              b := [Prop(Prompt, Some(Not(Symb(a))), None)]]);
    assert Uses(Symb(a)) == {a} && Uses(Symb(b)) == {b};
    assert Uses(Not(Symb(a))) == {a} && Uses(Not(Symb(b))) == {b};
    PropUse(Props(t, a), 0);
    PropUse(Props(t, b), 0);
    assert b in PropUses(Props(t, a)[0]) && a in PropUses(Props(t, b)[0]);
    TwoCycle(Graph(t), a, b);
    TwoCycle(Graph(t), b, a);
  }

  lemma TwoCycle(succ: Symbol -> set<Symbol>, a: Symbol, b: Symbol)
    requires b in succ(a) && a in succ(b)
    ensures Cyclic(succ, {a})
  {
    var p := [a, b, a];
    assert IsPath(succ, p) && p[0] == p[2];
  }

  lemma PropUse(ps: seq<Prop>, k: nat)
    requires k < |ps|
    ensures PropUses(ps[k]) <= PropsUse(ps)
  {
    if k > 0 {
      PropUse(ps[1..], k - 1);
    }
  }

  class Checker {
    const table: Table
    ghost const all: set<Symbol>     // all symbols
    ghost const roots: set<Symbol>   // the symbols of for_all_symbols
    var check: set<Symbol>           // SYMBOL_CHECK: being checked
    var checked: set<Symbol>         // SYMBOL_CHECKED
    var errors: nat                  // zconfnerrs
    ghost var done: seq<Symbol>      // in the order in which their check was finished
    ghost var before: nat            // errors before the search

    ghost predicate Valid(stack: seq<Symbol>)
      reads this
    {
      && Closed(Graph(table), all) && checked <= all && check <= checked
      && (forall s :: s in check <==> s in stack) && (forall s :: s in done <==> s in checked && s !in check)
      && IsPath(Graph(table), stack) && (stack != [] ==> stack[0] in roots)
      && before <= errors && (before < errors ==> Recursive(table, roots))
    }

    /** No cycle so far, and all that is finished is finished completely. */
    ghost predicate Clean()
      reads this
    {
      errors == before ==> Topological(Graph(table), done)
    }

    /** What every part of the search keeps: a symbol that is returned is on the stack. */
    twostate predicate Searched(new stack: seq<Symbol>, new r: Option<Symbol>)
      reads this
    {
      && Valid(stack) && check == old(check) && old(checked) <= checked && old(errors) <= errors &&
        before == old(before)
      && (forall s :: s in old(done) ==> s in done)
      && (r.Some? ==> r.value in check && Recursive(table, roots))
      && (r.None? ==> Clean())
    }

    /** sym_check_deps. */
    method CheckDeps(sym: Symbol, ghost stack: seq<Symbol>) returns (r: Option<Symbol>)
      requires Valid(stack) && Clean() && sym in all
      requires if stack == [] then sym in roots else sym in Deps(table, stack[|stack| - 1])
      modifies this
      ensures Searched(stack, r)
      ensures r.None? ==> sym in done
      ensures stack == [] ==> r.None?
      decreases all - checked, 0
    {
      LongerPath(Graph(table), stack, sym);
      if sym in check {
        Lasso(Graph(table), roots, stack, sym);
        return Some(sym);
      }
      if sym in checked {
        return None;
      }
      check, checked := check + {sym}, checked + {sym};
      r := CheckSymDeps(sym, stack + [sym]);
      if r.None? && errors == before {
        TopologicalStep(Graph(table), done, sym);
      }
      check := check - {sym};
      done := done + [sym];
      if r == Some(sym) {
        errors := errors + 1;
        r := None;
      }
    }

    /** sym_check_sym_deps. */
    method CheckSymDeps(sym: Symbol, ghost stack: seq<Symbol>) returns (r: Option<Symbol>)
      requires Valid(stack) && Clean() && stack != [] && stack[|stack| - 1] == sym && sym in all
      modifies this
      ensures Searched(stack, r)
      ensures r.None? ==> forall d :: d in Deps(table, sym) ==> d in done
      decreases all - checked, 4
    {
      r := CheckExprDeps(RevDep(table, sym), stack);
      if r.Some? {
        return;
      }
      var props := Props(table, sym);
      var i := 0;
      while i < |props|
        invariant 0 <= i <= |props|
        invariant Searched(stack, None)
        invariant forall d :: d in PropsUse(props[..i]) || d in UsesOpt(RevDep(table, sym)) ==> d in done
      {
        var prop := props[i];
        PropUse(props, i);
        PropsUseStep(props, i);
        if !(prop.kind.Choice? || prop.kind.Select?) {
          r := CheckExprDeps(prop.visible, stack);
          if r.Some? {
            return;
          }
          if prop.kind.Default? {
            r := CheckExprDeps(prop.expr, stack);
            if r.Some? {
              return;
            }
          }
        }
        i := i + 1;
      }
      assert props[..i] == props;
      r := None;
    }

    method CheckExprDeps(e: Option<Expr>, ghost stack: seq<Symbol>) returns (r: Option<Symbol>)
      requires Valid(stack) && Clean() && stack != [] && stack[|stack| - 1] in all
      requires UsesOpt(e) <= Deps(table, stack[|stack| - 1])
      modifies this
      ensures Searched(stack, r)
      ensures r.None? ==> forall d :: d in UsesOpt(e) ==> d in done
      decreases all - checked, 3
    {
      if e.None? {
        return None;
      }
      r := CheckExpr(e.value, stack);
    }

    /** sym_check_expr_deps. */
    method CheckExpr(e: Expr, ghost stack: seq<Symbol>) returns (r: Option<Symbol>)
      requires Valid(stack) && Clean() && stack != [] && stack[|stack| - 1] in all
      requires Uses(e) <= Deps(table, stack[|stack| - 1])
      modifies this
      ensures Searched(stack, r)
      ensures r.None? ==> forall d :: d in Uses(e) ==> d in done
      decreases all - checked, 2, e
    {
      match e
      case Junct(_, left, right) =>
        r := CheckExpr(left, stack);
        if r.Some? {
          return;
        }
        r := CheckExpr(right, stack);
      case Not(arg) =>
        r := CheckExpr(arg, stack);
      case Equal(lhs, rhs) =>
        r := CheckBoth(lhs, rhs, stack);
      case Unequal(lhs, rhs) =>
        r := CheckBoth(lhs, rhs, stack);
      case Symb(sym) =>
        r := CheckDeps(sym, stack);
    }

    method CheckBoth(lhs: Symbol, rhs: Symbol, ghost stack: seq<Symbol>) returns (r: Option<Symbol>)
      requires Valid(stack) && Clean() && stack != [] && stack[|stack| - 1] in all
      requires {lhs, rhs} <= Deps(table, stack[|stack| - 1])
      modifies this
      ensures Searched(stack, r)
      ensures r.None? ==> lhs in done && rhs in done
      decreases all - checked, 1
    {
      r := CheckDeps(lhs, stack);
      if r.Some? {
        return;
      }
      r := CheckDeps(rhs, stack);
    }

    /** The loop over all symbols at the end of conf_parse. */
    method CheckAll(syms: seq<Symbol>)
      requires Closed(Graph(table), all) && (forall s :: s in roots <==> s in syms) && roots <= all && check == {}
      requires checked == {}
      modifies this
      ensures errors > old(errors) <==> Recursive(table, roots)
    {
      done, before := [], errors;
      Begin();
      var i := 0;
      while i < |syms|
        invariant 0 <= i <= |syms| && Valid([]) && Clean() && before == old(errors)
        invariant forall k :: 0 <= k < i ==> syms[k] in done
      {
        CheckRoot(syms[i]);
        i := i + 1;
      }
      Verdict();
    }

    lemma Begin()
      requires Closed(Graph(table), all) && check == {} && checked == {} && done == [] && before == errors
      ensures Valid([]) && Clean()
    {
    }

    lemma Verdict()
      requires Valid([]) && Clean() && forall s :: s in roots ==> s in done
      ensures errors > before <==> Recursive(table, roots)
    {
      if errors == before {
        TopologicalHasNoCycle(Graph(table), done, roots);
      }
    }

    /** One symbol; nothing is on the stack, so nothing is returned. */
    method CheckRoot(sym: Symbol)
      requires Valid([]) && Clean() && sym in roots && sym in all
      modifies this
      ensures Valid([]) && Clean() && before == old(before) && sym in done
      ensures forall s :: s in old(done) ==> s in done
    {
      var r := CheckDeps(sym, []);
      errors := errors + if r.Some? then 1 else 0;
    }
  }

  lemma PropsUseStep(ps: seq<Prop>, k: nat)
    requires k < |ps|
    ensures PropsUse(ps[..k + 1]) == PropsUse(ps[..k]) + PropUses(ps[k])
  {
    if k > 0 {
      assert ps[..k + 1][1..] == ps[1..][..k] && ps[..k][1..] == ps[1..][..k - 1];
      PropsUseStep(ps[1..], k - 1);
    }
  }
}
