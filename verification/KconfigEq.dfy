/**
  Constant folding (expr_eliminate_yn), equality of expressions (expr_eq and
  expr_eliminate_eq) and extraction of a common part (expr_extract_eq).

  The two slots these functions rewrite belong to different trees, so a call
  takes both trees and gives back both rewritten trees.
 */
module KconfigEq {
  import opened Options
  import opened KconfigExpr

  // ---------------------------------------------------------------------
  // Constant folding

  function EliminateYn(e: Expr): Expr {
    match e
    case Junct(op, l, r) => FoldJunct(op, EliminateYn(l), EliminateYn(r))
    case _ => e
  }

  /** One AND or OR node whose operands are already folded. */
  function FoldJunct(op: Junction, l: Expr, r: Expr): Expr {
    var zero, unit := Symb(op.Dual().Unit()), Symb(op.Unit());
    if l == zero then zero
    else if l == unit then r
    else if r == zero then zero
    else if r == unit then l
    else Junct(op, l, r)
  }

  /** Some AND or OR node has the constant y or n as an operand. */
  predicate HasYnOperand(e: Expr) {
    e.Junct? && (IsYn(e.left) || IsYn(e.right) || HasYnOperand(e.left) || HasYnOperand(e.right))
  }

  predicate IsYn(e: Expr) {
    e.Symb? && e.sym.IsYesOrNo()
  }

  lemma {:induction false} EliminateYnValue(e: Expr, env: Env)
    ensures Val(EliminateYn(e), env) == Val(e, env)
  {
    if e.Junct? {
      EliminateYnValue(e.left, env);
      EliminateYnValue(e.right, env);
    }
  }

  lemma EliminateYnSame(e: Expr)
    ensures Same(e, EliminateYn(e))
  {
    forall env: Env ensures Val(e, env) == Val(EliminateYn(e), env) {
      EliminateYnValue(e, env);
    }
  }

  /** Folding leaves no constant operand, never adds operands, and drops some whenever it had work to do. */
  lemma {:induction false} EliminateYnFolds(e: Expr)
    ensures !HasYnOperand(EliminateYn(e))
    ensures EliminateYn(e).Leaves() <= e.Leaves()
    ensures HasYnOperand(e) ==> EliminateYn(e).Leaves() < e.Leaves()
    ensures !HasYnOperand(e) ==> EliminateYn(e) == e
    ensures EliminateYn(e).Size() <= e.Size()
  {
    if e.Junct? {
      EliminateYnFolds(e.left);
      EliminateYnFolds(e.right);
    }
  }

  // ---------------------------------------------------------------------
  // Equality

  /** __expr_eliminate_eq: cancels operands of an op-chain that occur on both sides. */
  function CancelEq(op: Junction, e1: Expr, e2: Expr): (r: (Expr, Expr))
    ensures r.0.Size() <= e1.Size() && r.1.Size() <= e2.Size()
    decreases e1.Size() + e2.Size(), if e1.IsJunct(op) || e2.IsJunct(op) then 0 else 3
  {
    if e1.IsJunct(op) then
      var (l, e2') := CancelEq(op, e1.left, e2);
      var (r, e2'') := CancelEq(op, e1.right, e2');
      (Junct(op, l, r), e2'')
    else if e2.IsJunct(op) then
      var (e1', l) := CancelEq(op, e1, e2.left);
      var (e1'', r) := CancelEq(op, e1', e2.right);
      (e1'', Junct(op, l, r))
    else if e1.Symb? && e2.Symb? && e1.sym == e2.sym && e1.sym.IsYesOrNo() then
      (e1, e2)
    else if !ExprEq(e1, e2) then
      (e1, e2)
    else
      (Symb(op.Unit()), Symb(op.Unit()))
  }

  /** expr_eliminate_eq up to its final folding step. */
  function CancelBoth(e1: Expr, e2: Expr): (r: (Expr, Expr))
    ensures r.0.Size() <= e1.Size() && r.1.Size() <= e2.Size()
    decreases e1.Size() + e2.Size(), 1
  {
    var (f1, f2) := if e1.Junct? then CancelEq(e1.op, e1, e2) else (e1, e2);
    if f2.Junct? && !f1.IsJunct(f2.op) then CancelEq(f2.op, f1, f2) else (f1, f2)
  }

  /** expr_eq.  It cancels on copies, so it changes neither argument. */
  function ExprEq(e1: Expr, e2: Expr): bool
    decreases e1.Size() + e2.Size(), 2
  {
    match (e1, e2)
    case (Equal(a, b), Equal(c, d)) => a == c && b == d
    case (Unequal(a, b), Unequal(c, d)) => a == c && b == d
    case (Symb(a), Symb(b)) => a == b
    case (Not(a), Not(b)) => ExprEq(a, b)
    case (Junct(o1, _, _), Junct(o2, _, _)) =>
      o1 == o2 &&
      var (f1, f2) := CancelBoth(e1, e2);
      var (g1, g2) := (EliminateYn(f1), EliminateYn(f2));
      g1.Symb? && g2.Symb? && g1.sym == g2.sym
    case _ => false
  }

  /** expr_eliminate_eq. */
  function EliminateEq(e1: Expr, e2: Expr): (Expr, Expr) {
    var (f1, f2) := CancelBoth(e1, e2);
    (EliminateYn(f1), EliminateYn(f2))
  }

  /** Two cancelling steps combine into one: a and b are the halves of the split side, d is the other side. */
  lemma CombineFactors(op: Junction, a: Tri, b: Tri, d: Tri, c1: Tri, c2: Tri)
    ensures op.Apply(op.Apply(a, c1), op.Apply(b, c2)) == op.Apply(op.Apply(a, b), op.Apply(c1, c2))
    ensures op.Apply(op.Apply(d, c2), c1) == op.Apply(d, op.Apply(c1, c2))
    ensures op.Apply(a, b) == op.Apply(b, a) && op.Apply(c1, c2) == op.Apply(c2, c1)
  {
  }

  lemma UnitIsNeutral(op: Junction, a: Tri, env: Env)
    ensures op.Apply(a, TriOf(env, op.Unit())) == a == op.Apply(TriOf(env, op.Unit()), a)
  {
  }

  /** Cancelling factors both sides: the operands taken out of the two sides have one common value. */
  lemma {:induction false} CancelEqFactors(op: Junction, e1: Expr, e2: Expr, env: Env) returns (c: Tri)
    ensures Val(e1, env) == op.Apply(Val(CancelEq(op, e1, e2).0, env), c)
    ensures Val(e2, env) == op.Apply(Val(CancelEq(op, e1, e2).1, env), c)
    decreases e1.Size() + e2.Size(), if e1.IsJunct(op) || e2.IsJunct(op) then 0 else 3
  {
    if e1.IsJunct(op) {
      var (l, e2') := CancelEq(op, e1.left, e2);
      var (r, e2'') := CancelEq(op, e1.right, e2');
      var c1 := CancelEqFactors(op, e1.left, e2, env);
      var c2 := CancelEqFactors(op, e1.right, e2', env);
      c := op.Apply(c1, c2);
      CombineFactors(op, Val(l, env), Val(r, env), Val(e2'', env), c1, c2);
    } else if e2.IsJunct(op) {
      var (e1', l) := CancelEq(op, e1, e2.left);
      var (e1'', r) := CancelEq(op, e1', e2.right);
      var c1 := CancelEqFactors(op, e1, e2.left, env);
      var c2 := CancelEqFactors(op, e1', e2.right, env);
      c := op.Apply(c1, c2);
      CombineFactors(op, Val(l, env), Val(r, env), Val(e1'', env), c1, c2);
    } else if e1.Symb? && e2.Symb? && e1.sym == e2.sym && e1.sym.IsYesOrNo() {
      c := TriOf(env, op.Unit());
    } else if !ExprEq(e1, e2) {
      c := TriOf(env, op.Unit());
    } else {
      ExprEqSound(e1, e2, env);
      c := Val(e1, env);
      UnitIsNeutral(op, c, env);
    }
  }

  /** If cancelling leaves two sides of equal value, the sides were equal. */
  lemma {:induction false} CancelBothSound(e1: Expr, e2: Expr, env: Env)
    ensures var (f1, f2) := CancelBoth(e1, e2);
      && (Val(f1, env) == Val(f2, env) ==> Val(e1, env) == Val(e2, env))
      && (Val(f1, env) <= Val(f2, env) ==> Val(e1, env) <= Val(e2, env))
    decreases e1.Size() + e2.Size(), 1
  {
    var (f1, f2) := if e1.Junct? then CancelEq(e1.op, e1, e2) else (e1, e2);
    if e1.Junct? {
      var c := CancelEqFactors(e1.op, e1, e2, env);
    }
    if f2.Junct? && !f1.IsJunct(f2.op) {
      var c := CancelEqFactors(f2.op, f1, f2, env);
    }
  }

  /** expr_eq is sound: when it answers true the two values agree under every assignment. */
  lemma {:induction false} ExprEqSound(e1: Expr, e2: Expr, env: Env)
    requires ExprEq(e1, e2)
    ensures Val(e1, env) == Val(e2, env)
    decreases e1.Size() + e2.Size(), 2
  {
    match (e1, e2)
    case (Not(a), Not(b)) => ExprEqSound(a, b, env);
    case (Junct(_, _, _), Junct(_, _, _)) =>
      var (f1, f2) := CancelBoth(e1, e2);
      EliminateYnValue(f1, env);
      EliminateYnValue(f2, env);
      CancelBothSound(e1, e2, env);
    case _ =>
  }

  // expr_eq recognises every expression as equal to its own copy.  The walk meets
  // the operands of both chains in the same order, so when it reaches an operand
  // all earlier ones are already reduced to constants and its twin comes first.

  /** All operands of the op-chain e are the constants y or n. */
  predicate AllYn(op: Junction, e: Expr) {
    if e.IsJunct(op) then AllYn(op, e.left) && AllYn(op, e.right) else IsYn(e)
  }

  /** The op-chain e with every operand cancelled. */
  function Cancelled(op: Junction, e: Expr): Expr {
    if e.IsJunct(op) then Junct(op, Cancelled(op, e.left), Cancelled(op, e.right))
    else if IsYn(e) then e
    else Symb(op.Unit())
  }

  /** An op-chain with a hole: the operands before the hole are given as done, those after as todo. */
  datatype Chain = Hole | InLeft(ctx: Chain, todo: Expr) | InRight(done: Expr, ctx: Chain)
  {
    predicate DoneAreYn(op: Junction) {
      match this
      case Hole => true
      case InLeft(c, _) => c.DoneAreYn(op)
      case InRight(d, c) => AllYn(op, d) && c.DoneAreYn(op)
    }

    function Fill(op: Junction, e: Expr): Expr {
      match this
      case Hole => e
      case InLeft(c, t) => Junct(op, c.Fill(op, e), t)
      case InRight(d, c) => Junct(op, d, c.Fill(op, e))
    }

    function Then(inner: Chain): Chain {
      match this
      case Hole => inner
      case InLeft(c, t) => InLeft(c.Then(inner), t)
      case InRight(d, c) => InRight(d, c.Then(inner))
    }
  }

  lemma {:induction false} FillThen(op: Junction, outer: Chain, inner: Chain, e: Expr)
    ensures outer.Then(inner).Fill(op, e) == outer.Fill(op, inner.Fill(op, e))
    ensures outer.DoneAreYn(op) && inner.DoneAreYn(op) ==> outer.Then(inner).DoneAreYn(op)
  {
    match outer
    case Hole =>
    case InLeft(c, _) => FillThen(op, c, inner, e);
    case InRight(_, c) => FillThen(op, c, inner, e);
  }

  lemma {:induction false} CancelledIsYn(op: Junction, e: Expr)
    ensures AllYn(op, Cancelled(op, e))
  {
    if e.IsJunct(op) {
      CancelledIsYn(op, e.left);
      CancelledIsYn(op, e.right);
    }
  }

  lemma {:induction false} AllYnFolds(op: Junction, e: Expr)
    requires AllYn(op, e)
    ensures IsYn(EliminateYn(e))
  {
    if e.IsJunct(op) {
      AllYnFolds(op, e.left);
      AllYnFolds(op, e.right);
    }
  }

  /** A constant cancels nothing. */
  lemma {:induction false} ConstantCancelsNothing(op: Junction, x: Expr, d: Expr)
    requires IsYn(x)
    ensures CancelEq(op, x, d) == (x, d)
  {
    if d.IsJunct(op) {
      ConstantCancelsNothing(op, x, d.left);
      ConstantCancelsNothing(op, x, d.right);
    }
  }

  lemma {:induction false} SkipsConstants(op: Junction, x: Expr, d: Expr)
    requires !x.IsJunct(op) && !IsYn(x) && AllYn(op, d)
    ensures CancelEq(op, x, d) == (x, d)
  {
    if d.IsJunct(op) {
      SkipsConstants(op, x, d.left);
      SkipsConstants(op, x, d.right);
    }
  }

  /** An operand meets its twin in the other chain and cancels with it, and with nothing else. */
  lemma {:induction false} MeetsTwin(op: Junction, x: Expr, c: Chain)
    requires !x.IsJunct(op) && !IsYn(x) && ExprEq(x, x) && c.DoneAreYn(op)
    ensures CancelEq(op, x, c.Fill(op, x)) == (Symb(op.Unit()), c.Fill(op, Symb(op.Unit())))
  {
    match c
    case Hole =>
    case InLeft(c', t) =>
      MeetsTwin(op, x, c');
      ConstantCancelsNothing(op, Symb(op.Unit()), t);
    case InRight(d, c') =>
      SkipsConstants(op, x, d);
      MeetsTwin(op, x, c');
  }

  lemma {:induction false} CancelsItself(op: Junction, x: Expr, c: Chain)
    requires c.DoneAreYn(op)
    ensures CancelEq(op, x, c.Fill(op, x)) == (Cancelled(op, x), c.Fill(op, Cancelled(op, x)))
    decreases x.Size(), if x.IsJunct(op) then 0 else 2
  {
    if x.IsJunct(op) {
      var toLeft := InLeft(Hole, x.right);
      assert Hole.DoneAreYn(op);
      assert toLeft.DoneAreYn(op);
      FillThen(op, c, toLeft, x.left);
      CancelsItself(op, x.left, c.Then(toLeft));
      var l := Cancelled(op, x.left);
      CancelledIsYn(op, x.left);
      FillThen(op, c, toLeft, l);
      var toRight := InRight(l, Hole);
      assert toRight.DoneAreYn(op);
      FillThen(op, c, toRight, x.right);
      CancelsItself(op, x.right, c.Then(toRight));
      FillThen(op, c, toRight, Cancelled(op, x.right));
    } else if IsYn(x) {
      ConstantCancelsNothing(op, x, c.Fill(op, x));
    } else {
      ExprEqReflexive(x);
      MeetsTwin(op, x, c);
    }
  }

  /** expr_eq answers true for every expression compared with its own copy. */
  lemma {:induction false} ExprEqReflexive(e: Expr)
    ensures ExprEq(e, e)
    decreases e.Size(), 1
  {
    match e
    case Not(a) => ExprEqReflexive(a);
    case Junct(op, l, r) =>
      CancelsItself(op, e, Hole);
      CancelledIsYn(op, e);
      AllYnFolds(op, Cancelled(op, e));
    case _ =>
  }

  // What expr_eq decides: equality up to the nesting and the order of the operands
  // of AND and OR, for expressions without y and n as operands.

  /** An expression without nesting and order of its chains. */
  datatype Key = Leaf(e: Expr) | Negated(key: Key) | Bag(op: Junction, keys: multiset<Key>)

  ghost function KeyOf(e: Expr): Key
    decreases e.Size(), 1
  {
    match e
    case Not(a) => Negated(KeyOf(a))
    case Junct(op, _, _) => Bag(op, Keys(op, e))
    case _ => Leaf(e)
  }

  /** The operands of the op-chain e, other than the neutral constant. */
  ghost function Keys(op: Junction, e: Expr): multiset<Key>
    decreases e.Size(), if e.IsJunct(op) then 0 else 2
  {
    if e.IsJunct(op) then Keys(op, e.left) + Keys(op, e.right)
    else if e == Symb(op.Unit()) then multiset{}
    else multiset{KeyOf(e)}
  }

  /** No AND or OR has y or n as an operand, at any depth. */
  predicate YnFree(e: Expr) {
    match e
    case Not(a) => YnFree(a)
    case Junct(_, l, r) => !IsYn(l) && !IsYn(r) && YnFree(l) && YnFree(r)
    case _ => true
  }

  /** Such a chain in which some operands have been cancelled. */
  predicate PartlyCancelled(op: Junction, e: Expr) {
    if e.IsJunct(op) then PartlyCancelled(op, e.left) && PartlyCancelled(op, e.right)
    else e == Symb(op.Unit()) || (!IsYn(e) && YnFree(e))
  }

  lemma {:induction false} YnFreeIsChain(op: Junction, e: Expr)
    requires YnFree(e) && !IsYn(e)
    ensures PartlyCancelled(op, e)
  {
    if e.IsJunct(op) {
      YnFreeIsChain(op, e.left);
      YnFreeIsChain(op, e.right);
    }
  }

  /** Taking two parts from a multiset one after the other. */
  lemma TakeTwice(l: multiset<Key>, r: multiset<Key>, e: multiset<Key>,
                  l': multiset<Key>, e': multiset<Key>, r': multiset<Key>, e'': multiset<Key>)
    requires l' == l - e && e' == e - l && r' == r - e' && e'' == e' - r
    ensures l' + r' == (l + r) - e && e'' == e - (l + r)
  {
    forall k: Key ensures (l' + r')[k] == ((l + r) - e)[k] {
    }
  }

  /** On each side is left what the other does not have. */
  ghost predicate Cancels(op: Junction, e1: Expr, e2: Expr, f1: Expr, f2: Expr) {
    && PartlyCancelled(op, f1) && PartlyCancelled(op, f2)
    && (f1.IsJunct(op) <==> e1.IsJunct(op)) && (f2.IsJunct(op) <==> e2.IsJunct(op))
    && Keys(op, f1) == Keys(op, e1) - Keys(op, e2) && Keys(op, f2) == Keys(op, e2) - Keys(op, e1)
  }

  lemma KeysOfJunct(op: Junction, l: Expr, r: Expr)
    ensures Keys(op, Junct(op, l, r)) == Keys(op, l) + Keys(op, r)
  {
  }

  lemma CancelsFirst(op: Junction, l: Expr, r: Expr, e: Expr, l': Expr, e': Expr, r': Expr, e'': Expr)
    requires Cancels(op, l, e, l', e') && Cancels(op, r, e', r', e'')
    ensures Cancels(op, Junct(op, l, r), e, Junct(op, l', r'), e'')
  {
    KeysOfJunct(op, l, r);
    KeysOfJunct(op, l', r');
    TakeTwice(Keys(op, l), Keys(op, r), Keys(op, e), Keys(op, l'), Keys(op, e'), Keys(op, r'), Keys(op, e''));
  }

  lemma CancelsSecond(op: Junction, l: Expr, r: Expr, e: Expr, l': Expr, e': Expr, r': Expr, e'': Expr)
    requires Cancels(op, e, l, e', l') && Cancels(op, e', r, e'', r')
    ensures Cancels(op, e, Junct(op, l, r), e'', Junct(op, l', r'))
  {
    KeysOfJunct(op, l, r);
    KeysOfJunct(op, l', r');
    TakeTwice(Keys(op, l), Keys(op, r), Keys(op, e), Keys(op, l'), Keys(op, e'), Keys(op, r'), Keys(op, e''));
  }

  lemma KeysOfOperand(op: Junction, e: Expr)
    requires !e.IsJunct(op)
    ensures Keys(op, e) == if e == Symb(op.Unit()) then multiset{} else multiset{KeyOf(e)}
  {
  }

  lemma CancelsOperands(op: Junction, e1: Expr, e2: Expr)
    requires PartlyCancelled(op, e1) && PartlyCancelled(op, e2) && !e1.IsJunct(op) && !e2.IsJunct(op)
    requires !IsYn(e1) && !IsYn(e2) ==> (ExprEq(e1, e2) <==> KeyOf(e1) == KeyOf(e2))
    ensures Cancels(op, e1, e2, CancelEq(op, e1, e2).0, CancelEq(op, e1, e2).1)
  {
    var u := Symb(op.Unit());
    var (f1, f2) := CancelEq(op, e1, e2);
    OperandsCancelled(op, e1, e2);
    KeysOfOperand(op, e1);
    KeysOfOperand(op, e2);
    KeysOfOperand(op, u);
  }

  lemma OperandsCancelled(op: Junction, e1: Expr, e2: Expr)
    requires PartlyCancelled(op, e1) && PartlyCancelled(op, e2) && !e1.IsJunct(op) && !e2.IsJunct(op)
    ensures CancelEq(op, e1, e2) == if !IsYn(e1) && !IsYn(e2) && ExprEq(e1, e2) then (Symb(op.Unit()), Symb(op.Unit()))
                                    else (e1, e2)
  {
  }

  lemma {:induction false} CancelKeys(op: Junction, e1: Expr, e2: Expr)
    requires PartlyCancelled(op, e1) && PartlyCancelled(op, e2)
    ensures Cancels(op, e1, e2, CancelEq(op, e1, e2).0, CancelEq(op, e1, e2).1)
    decreases e1.Size() + e2.Size(), if e1.IsJunct(op) || e2.IsJunct(op) then 0 else 3
  {
    if e1.IsJunct(op) {
      var (l, e2') := CancelEq(op, e1.left, e2);
      var (r, e2'') := CancelEq(op, e1.right, e2');
      CancelKeys(op, e1.left, e2);
      CancelKeys(op, e1.right, e2');
      CancelsFirst(op, e1.left, e1.right, e2, l, e2', r, e2'');
    } else if e2.IsJunct(op) {
      var (e1', l) := CancelEq(op, e1, e2.left);
      var (e1'', r) := CancelEq(op, e1', e2.right);
      CancelKeys(op, e1, e2.left);
      CancelKeys(op, e1', e2.right);
      CancelsSecond(op, e2.left, e2.right, e1, l, e1', r, e1'');
    } else {
      if !IsYn(e1) && !IsYn(e2) {
        ExprEqKey(e1, e2);
      }
      CancelsOperands(op, e1, e2);
    }
  }

  /** Folding a chain in which some operands have been cancelled. */
  lemma {:induction false} FoldKeys(op: Junction, e: Expr)
    requires PartlyCancelled(op, e)
    ensures PartlyCancelled(op, EliminateYn(e)) && Keys(op, EliminateYn(e)) == Keys(op, e)
    ensures EliminateYn(e) == Symb(op.Unit()) <==> Keys(op, e) == multiset{}
  {
    if e.IsJunct(op) {
      FoldKeys(op, e.left);
      FoldKeys(op, e.right);
      FoldedJunct(op, EliminateYn(e.left), EliminateYn(e.right));
    } else if e != Symb(op.Unit()) {
      YnFreeIsFolded(e);
      EliminateYnFolds(e);
    }
  }

  lemma FoldedJunct(op: Junction, l: Expr, r: Expr)
    requires PartlyCancelled(op, l) && PartlyCancelled(op, r)
    requires l == Symb(op.Unit()) <==> Keys(op, l) == multiset{}
    requires r == Symb(op.Unit()) <==> Keys(op, r) == multiset{}
    ensures var f := FoldJunct(op, l, r);
      && PartlyCancelled(op, f) && Keys(op, f) == Keys(op, l) + Keys(op, r)
      && (f == Symb(op.Unit()) <==> Keys(op, f) == multiset{})
  {
    var u := Symb(op.Unit());
    if l == u {
      assert FoldJunct(op, l, r) == r;
    } else if r == u {
      assert FoldJunct(op, l, r) == l;
    } else {
      assert FoldJunct(op, l, r) == Junct(op, l, r);
      KeysOfJunct(op, l, r);
    }
  }

  lemma {:induction false} YnFreeIsFolded(e: Expr)
    requires YnFree(e)
    ensures !HasYnOperand(e)
  {
    if e.Junct? {
      YnFreeIsFolded(e.left);
      YnFreeIsFolded(e.right);
    }
  }

  lemma SameDifferences(a: multiset<Key>, b: multiset<Key>)
    requires a - b == b - a
    ensures a == b
  {
    forall k: Key ensures a[k] == b[k] {
      assert (a - b)[k] == (b - a)[k];
    }
  }

  /** expr_eq answers true exactly for expressions that differ only in nesting and order. */
  lemma {:induction false} ExprEqKey(e1: Expr, e2: Expr)
    requires YnFree(e1) && YnFree(e2)
    ensures ExprEq(e1, e2) <==> KeyOf(e1) == KeyOf(e2)
    decreases e1.Size() + e2.Size(), 2
  {
    match (e1, e2)
    case (Not(a), Not(b)) => ExprEqKey(a, b);
    case (Junct(o1, _, _), Junct(o2, _, _)) =>
      if o1 == o2 {
        YnFreeIsChain(o1, e1);
        YnFreeIsChain(o1, e2);
        JunctionsEqual(o1, e1, e2);
      }
    case _ =>
  }

  /** What is left of two chains is one symbol only if nothing is left. */
  lemma {:induction false} JunctionsEqual(op: Junction, e1: Expr, e2: Expr)
    requires e1.IsJunct(op) && e2.IsJunct(op) && PartlyCancelled(op, e1) && PartlyCancelled(op, e2)
    ensures ExprEq(e1, e2) <==> Keys(op, e1) == Keys(op, e2)
    decreases e1.Size() + e2.Size(), 1
  {
    CancelKeys(op, e1, e2);
    var (f1, f2) := CancelEq(op, e1, e2);
    assert CancelBoth(e1, e2) == (f1, f2);
    FoldKeys(op, f1);
    FoldKeys(op, f2);
    if ExprEq(e1, e2) {
      assert EliminateYn(f1) == EliminateYn(f2);
      SameDifferences(Keys(op, e1), Keys(op, e2));
    }
  }

  /** In particular operands may be exchanged and regrouped. */
  lemma ExprEqReorders(op: Junction, a: Expr, b: Expr, c: Expr)
    requires YnFree(a) && YnFree(b) && YnFree(c) && !IsYn(a) && !IsYn(b) && !IsYn(c)
    ensures ExprEq(Junct(op, a, b), Junct(op, b, a))
    ensures ExprEq(Junct(op, Junct(op, a, b), c), Junct(op, a, Junct(op, b, c)))
  {
    KeysOfJunct(op, a, b);
    KeysOfJunct(op, b, a);
    KeysOfJunct(op, b, c);
    KeysOfJunct(op, Junct(op, a, b), c);
    KeysOfJunct(op, a, Junct(op, b, c));
    ExprEqKey(Junct(op, a, b), Junct(op, b, a));
    ExprEqKey(Junct(op, Junct(op, a, b), c), Junct(op, a, Junct(op, b, c)));
  }

  /** A symbol other than y and n, a negated symbol or a comparison. */
  predicate Simple(e: Expr) {
    (e.Symb? && !IsYn(e)) || (e.Not? && e.arg.Symb?) || e.IsCompare()
  }

  predicate SimpleChain(op: Junction, e: Expr) {
    if e.IsJunct(op) then SimpleChain(op, e.left) && SimpleChain(op, e.right) else Simple(e)
  }

  function Operands(op: Junction, e: Expr): multiset<Expr> {
    if e.IsJunct(op) then Operands(op, e.left) + Operands(op, e.right) else multiset{e}
  }

  /** The simple expression with the given key. */
  ghost function SimpleOf(k: Key): Option<Expr> {
    match k
    case Leaf(e) => if Simple(e) && !e.Not? then Some(e) else None
    case Negated(Leaf(e)) => if e.Symb? then Some(Not(e)) else None
    case _ => None
  }

  lemma {:induction false} SimpleKeys(op: Junction, e: Expr, k: Key)
    requires SimpleChain(op, e)
    ensures YnFree(e) && !IsYn(e)
    ensures Keys(op, e)[k] == if SimpleOf(k).Some? then Operands(op, e)[SimpleOf(k).value] else 0
    ensures forall x :: x in Operands(op, e) ==> Simple(x) && SimpleOf(KeyOf(x)) == Some(x)
  {
    if e.IsJunct(op) {
      SimpleKeys(op, e.left, k);
      SimpleKeys(op, e.right, k);
    } else {
      KeysOfOperand(op, e);
    }
  }

  lemma SameOperands(op: Junction, e1: Expr, e2: Expr)
    requires SimpleChain(op, e1) && SimpleChain(op, e2) && Operands(op, e1) == Operands(op, e2)
    ensures Keys(op, e1) == Keys(op, e2)
  {
    forall k: Key ensures Keys(op, e1)[k] == Keys(op, e2)[k] {
      SimpleKeys(op, e1, k);
      SimpleKeys(op, e2, k);
    }
  }

  lemma SameKeys(op: Junction, e1: Expr, e2: Expr)
    requires SimpleChain(op, e1) && SimpleChain(op, e2) && Keys(op, e1) == Keys(op, e2)
    ensures Operands(op, e1) == Operands(op, e2)
  {
    forall x: Expr ensures Operands(op, e1)[x] == Operands(op, e2)[x] {
      SimpleKeys(op, e1, KeyOf(x));
      SimpleKeys(op, e2, KeyOf(x));
    }
  }

  /** For chains of simple operands expr_eq compares the operands as multisets, whatever the nesting. */
  lemma ExprEqOperands(op: Junction, e1: Expr, e2: Expr)
    requires SimpleChain(op, e1) && SimpleChain(op, e2) && e1.IsJunct(op) && e2.IsJunct(op)
    ensures ExprEq(e1, e2) <==> Operands(op, e1) == Operands(op, e2)
  {
    SimpleKeys(op, e1, Leaf(e1));
    SimpleKeys(op, e2, Leaf(e2));
    ExprEqKey(e1, e2);
    if Operands(op, e1) == Operands(op, e2) {
      SameOperands(op, e1, e2);
    }
    if Keys(op, e1) == Keys(op, e2) {
      SameKeys(op, e1, e2);
    }
  }

  /** expr_eliminate_eq leaves on each side the operands that the other does not have, hence none on both. */
  lemma EliminateEqKeys(op: Junction, e1: Expr, e2: Expr)
    requires YnFree(e1) && YnFree(e2) && !IsYn(e1) && !IsYn(e2)
    requires (e1.Junct? || e2.Junct?) && (e1.Junct? ==> e1.op == op) && (e2.Junct? ==> e2.op == op)
    ensures var (g1, g2) := EliminateEq(e1, e2);
      Keys(op, g1) == Keys(op, e1) - Keys(op, e2) && Keys(op, g2) == Keys(op, e2) - Keys(op, e1)
  {
    YnFreeIsChain(op, e1);
    YnFreeIsChain(op, e2);
    CancelKeys(op, e1, e2);
    var (f1, f2) := CancelEq(op, e1, e2);
    BothIsOne(op, e1, e2);
    FoldKeys(op, f1);
    FoldKeys(op, f2);
  }

  lemma BothIsOne(op: Junction, e1: Expr, e2: Expr)
    requires (e1.Junct? || e2.Junct?) && (e1.Junct? ==> e1.op == op) && (e2.Junct? ==> e2.op == op)
    requires PartlyCancelled(op, e1) && PartlyCancelled(op, e2)
    ensures CancelBoth(e1, e2) == CancelEq(op, e1, e2)
  {
    if e1.Junct? {
      CancelKeys(op, e1, e2);
      if !e2.Junct? {
        OperandStays(op, e1, e2);
      }
    }
  }

  lemma {:induction false} OperandStays(op: Junction, e: Expr, x: Expr)
    requires !x.Junct?
    ensures !CancelEq(op, e, x).1.Junct?
  {
    if e.IsJunct(op) {
      OperandStays(op, e.left, x);
      OperandStays(op, e.right, CancelEq(op, e.left, x).1);
    }
  }

  /** What menu_finalize relies on: if elimination reduces the second side to y, the first implies it. */
  lemma EliminateEqImplies(e1: Expr, e2: Expr, env: Env)
    requires EliminateEq(e1, e2).1 == Symb(YesSym)
    ensures Val(e1, env) <= Val(e2, env)
  {
    var (f1, f2) := CancelBoth(e1, e2);
    EliminateYnValue(f2, env);
    CancelBothSound(e1, e2, env);
  }

  // ---------------------------------------------------------------------
  // Extraction

  /** expr_extract_eq: moves common operands into the accumulator. */
  function ExtractEq(op: Junction, acc: Option<Expr>, e1: Expr, e2: Expr): (r: (Option<Expr>, Expr, Expr))
    ensures r.1.Size() <= e1.Size() && r.2.Size() <= e2.Size()
    decreases e1.Size() + e2.Size()
  {
    if e1.IsJunct(op) then
      var (acc', l, e2') := ExtractEq(op, acc, e1.left, e2);
      var (acc'', r, e2'') := ExtractEq(op, acc', e1.right, e2');
      (acc'', Junct(op, l, r), e2'')
    else if e2.IsJunct(op) then
      var (acc', e1', l) := ExtractEq(op, acc, e1, e2.left);
      var (acc'', e1'', r) := ExtractEq(op, acc', e1', e2.right);
      (acc'', e1'', Junct(op, l, r))
    else if ExprEq(e1, e2) then
      (Some(if acc.Some? then Junct(op, acc.value, e1) else e1), Symb(op.Unit()), Symb(op.Unit()))
    else
      (acc, e1, e2)
  }

  /** expr_extract_eq_and and expr_extract_eq_or. */
  function Extract(op: Junction, e1: Expr, e2: Expr): (Option<Expr>, Expr, Expr) {
    var (tmp, f1, f2) := ExtractEq(op, None, e1, e2);
    if tmp.Some? then (tmp, EliminateYn(f1), EliminateYn(f2)) else (tmp, f1, f2)
  }

  ghost function AccKeys(op: Junction, acc: Option<Expr>): multiset<Key> {
    if acc.Some? then Keys(op, acc.value) else multiset{}
  }

  /** Extraction leaves what cancelling leaves. */
  ghost predicate LikeCancel(op: Junction, acc: Option<Expr>, e1: Expr, e2: Expr) {
    var (acc', f1, f2) := ExtractEq(op, acc, e1, e2);
    (f1, f2) == CancelEq(op, e1, e2) && (acc'.None? ==> acc.None? && f1 == e1 && f2 == e2)
  }

  lemma {:induction false} ExtractIsCancel(op: Junction, acc: Option<Expr>, e1: Expr, e2: Expr)
    requires PartlyCancelled(op, e1) && PartlyCancelled(op, e2)
    ensures LikeCancel(op, acc, e1, e2)
    decreases e1.Size() + e2.Size()
  {
    if e1.IsJunct(op) {
      var (acc', _, e2') := ExtractEq(op, acc, e1.left, e2);
      CancelKeys(op, e1.left, e2);
      ExtractIsCancel(op, acc, e1.left, e2);
      ExtractIsCancel(op, acc', e1.right, e2');
    } else if e2.IsJunct(op) {
      var (acc', e1', _) := ExtractEq(op, acc, e1, e2.left);
      CancelKeys(op, e1, e2.left);
      ExtractIsCancel(op, acc, e1, e2.left);
      ExtractIsCancel(op, acc', e1', e2.right);
    } else {
      OperandsCancelled(op, e1, e2);
    }
  }

  /** What is no longer in f1 has been collected. */
  ghost predicate Collected(op: Junction, acc: Option<Expr>, e1: Expr, acc': Option<Expr>, f1: Expr) {
    AccKeys(op, acc') + Keys(op, f1) == AccKeys(op, acc) + Keys(op, e1)
  }

  lemma AddTwice(a: multiset<Key>, a': multiset<Key>, a'': multiset<Key>, l: multiset<Key>, r: multiset<Key>,
                 l': multiset<Key>, r': multiset<Key>)
    requires a' + l' == a + l && a'' + r' == a' + r
    ensures a'' + (l' + r') == a + (l + r)
  {
    forall k: Key ensures (a'' + (l' + r'))[k] == (a + (l + r))[k] {
      assert (a' + l')[k] == (a + l)[k] && (a'' + r')[k] == (a' + r)[k];
    }
  }

  lemma CollectedJunct(op: Junction, acc: Option<Expr>, acc': Option<Expr>, acc'': Option<Expr>, l: Expr, r: Expr,
                       l': Expr, r': Expr)
    requires Collected(op, acc, l, acc', l') && Collected(op, acc', r, acc'', r')
    ensures Collected(op, acc, Junct(op, l, r), acc'', Junct(op, l', r'))
  {
    KeysOfJunct(op, l, r);
    KeysOfJunct(op, l', r');
    AddTwice(AccKeys(op, acc), AccKeys(op, acc'), AccKeys(op, acc''), Keys(op, l), Keys(op, r), Keys(op, l'),
             Keys(op, r'));
  }

  lemma CollectedOperand(op: Junction, acc: Option<Expr>, e1: Expr, e2: Expr)
    requires !e1.IsJunct(op) && !e2.IsJunct(op)
    ensures var (acc', f1, _) := ExtractEq(op, acc, e1, e2); Collected(op, acc, e1, acc', f1)
  {
    KeysOfOperand(op, Symb(op.Unit()));
    if ExprEq(e1, e2) && acc.Some? {
      KeysOfJunct(op, acc.value, e1);
    }
  }

  lemma {:induction false} ExtractCollects(op: Junction, acc: Option<Expr>, e1: Expr, e2: Expr)
    ensures var (acc', f1, _) := ExtractEq(op, acc, e1, e2); Collected(op, acc, e1, acc', f1)
    decreases e1.Size() + e2.Size()
  {
    if e1.IsJunct(op) {
      var (acc', l, e2') := ExtractEq(op, acc, e1.left, e2);
      var (acc'', r, _) := ExtractEq(op, acc', e1.right, e2');
      ExtractCollects(op, acc, e1.left, e2);
      ExtractCollects(op, acc', e1.right, e2');
      CollectedJunct(op, acc, acc', acc'', e1.left, e1.right, l, r);
    } else if e2.IsJunct(op) {
      var (acc', e1', _) := ExtractEq(op, acc, e1, e2.left);
      ExtractCollects(op, acc, e1, e2.left);
      ExtractCollects(op, acc', e1', e2.right);
    } else {
      CollectedOperand(op, acc, e1, e2);
    }
  }

  /** acc has the operands that e1 and e2 share; f1 and f2 have the others. */
  ghost predicate Splits(op: Junction, e1: Expr, e2: Expr, acc: Option<Expr>, f1: Expr, f2: Expr) {
    && PartlyCancelled(op, f1) && PartlyCancelled(op, f2) && AccKeys(op, acc) == Keys(op, e1) * Keys(op, e2)
    && Keys(op, f1) == Keys(op, e1) - Keys(op, e2) && Keys(op, f2) == Keys(op, e2) - Keys(op, e1)
    && (Keys(op, f1) == multiset{} <==> Keys(op, e1) <= Keys(op, e2))
  }

  lemma CollectedSplits(op: Junction, e1: Expr, e2: Expr, acc: Option<Expr>, f1: Expr, f2: Expr)
    requires Cancels(op, e1, e2, f1, f2) && Collected(op, None, e1, acc, f1)
    ensures Splits(op, e1, e2, acc, f1, f2)
  {
    TakeCommon(AccKeys(op, acc), Keys(op, f1), Keys(op, e1), Keys(op, e2));
  }

  /** Extraction up to its folding step. */
  lemma ChainKeys(op: Junction, e1: Expr, e2: Expr)
    requires PartlyCancelled(op, e1) && PartlyCancelled(op, e2)
    ensures var (tmp, f1, f2) := ExtractEq(op, None, e1, e2);
      Splits(op, e1, e2, tmp, f1, f2) && (tmp.None? ==> f1 == e1 && f2 == e2)
  {
    ExtractIsCancel(op, None, e1, e2);
    ExtractCollects(op, None, e1, e2);
    CancelKeys(op, e1, e2);
    var (tmp, f1, f2) := ExtractEq(op, None, e1, e2);
    CollectedSplits(op, e1, e2, tmp, f1, f2);
  }

  lemma SplitsFolded(op: Junction, e1: Expr, e2: Expr, acc: Option<Expr>, f1: Expr, f2: Expr)
    requires Splits(op, e1, e2, acc, f1, f2)
    ensures Splits(op, e1, e2, acc, EliminateYn(f1), EliminateYn(f2))
    ensures EliminateYn(f1) == Symb(op.Unit()) <==> Keys(op, e1) <= Keys(op, e2)
  {
    FoldKeys(op, f1);
    FoldKeys(op, f2);
  }

  /** The common operands are extracted, and on each side the others are left. */
  lemma ExtractKeys(op: Junction, e1: Expr, e2: Expr)
    requires YnFree(e1) && YnFree(e2) && !IsYn(e1) && !IsYn(e2)
    ensures var (tmp, f1, f2) := Extract(op, e1, e2);
      Splits(op, e1, e2, tmp, f1, f2) && (f1 == Symb(op.Unit()) <==> Keys(op, e1) <= Keys(op, e2))
  {
    YnFreeIsChain(op, e1);
    YnFreeIsChain(op, e2);
    ChainKeys(op, e1, e2);
    var (tmp, f1, f2) := ExtractEq(op, None, e1, e2);
    if tmp.Some? {
      SplitsFolded(op, e1, e2, tmp, f1, f2);
    } else {
      NotNeutral(op, e1);
    }
  }

  lemma NotNeutral(op: Junction, e: Expr)
    requires YnFree(e) && !IsYn(e)
    ensures Keys(op, e) != multiset{}
  {
    YnFreeIsChain(op, e);
    FoldKeys(op, e);
    YnFreeIsFolded(e);
    EliminateYnFolds(e);
  }

  lemma TakeCommon(c: multiset<Key>, d: multiset<Key>, a: multiset<Key>, b: multiset<Key>)
    requires c + d == multiset{} + a && d == a - b
    ensures c == a * b && (d == multiset{} <==> a <= b)
  {
    forall k: Key ensures c[k] == (a * b)[k] {
      assert (c + d)[k] == (multiset{} + a)[k];
    }
    if d == multiset{} {
      forall k: Key ensures a[k] <= b[k] {
        assert (a - b)[k] == 0;
      }
    }
  }

  function AccVal(op: Junction, acc: Option<Expr>, env: Env): Tri {
    if acc.Some? then Val(acc.value, env) else TriOf(env, op.Unit())
  }

  lemma {:induction false} ExtractEqFactors(op: Junction, acc: Option<Expr>, e1: Expr, e2: Expr, env: Env)
      returns (c: Tri)
    ensures var (acc', f1, f2) := ExtractEq(op, acc, e1, e2);
      && AccVal(op, acc', env) == op.Apply(AccVal(op, acc, env), c)
      && Val(e1, env) == op.Apply(Val(f1, env), c)
      && Val(e2, env) == op.Apply(Val(f2, env), c)
    decreases e1.Size() + e2.Size()
  {
    if e1.IsJunct(op) {
      var (acc', l, e2') := ExtractEq(op, acc, e1.left, e2);
      var (acc'', r, e2'') := ExtractEq(op, acc', e1.right, e2');
      var c1 := ExtractEqFactors(op, acc, e1.left, e2, env);
      var c2 := ExtractEqFactors(op, acc', e1.right, e2', env);
      c := op.Apply(c1, c2);
      CombineFactors(op, Val(l, env), Val(r, env), Val(e2'', env), c1, c2);
      CombineFactors(op, Val(l, env), Val(r, env), AccVal(op, acc, env), c2, c1);
    } else if e2.IsJunct(op) {
      var (acc', e1', l) := ExtractEq(op, acc, e1, e2.left);
      var (acc'', e1'', r) := ExtractEq(op, acc', e1', e2.right);
      var c1 := ExtractEqFactors(op, acc, e1, e2.left, env);
      var c2 := ExtractEqFactors(op, acc', e1', e2.right, env);
      c := op.Apply(c1, c2);
      CombineFactors(op, Val(l, env), Val(r, env), Val(e1'', env), c1, c2);
      CombineFactors(op, Val(l, env), Val(r, env), AccVal(op, acc, env), c2, c1);
    } else if ExprEq(e1, e2) {
      ExprEqSound(e1, e2, env);
      c := Val(e1, env);
    } else {
      c := TriOf(env, op.Unit());
    }
  }

  /** The extracted expression is a genuine common factor of both arguments. */
  lemma ExtractFactors(op: Junction, e1: Expr, e2: Expr, env: Env)
    ensures var (tmp, f1, f2) := Extract(op, e1, e2);
      && Val(e1, env) == op.Apply(AccVal(op, tmp, env), Val(f1, env))
      && Val(e2, env) == op.Apply(AccVal(op, tmp, env), Val(f2, env))
  {
    var (tmp, f1, f2) := ExtractEq(op, None, e1, e2);
    var c := ExtractEqFactors(op, None, e1, e2, env);
    UnitIsNeutral(op, c, env);
    assert AccVal(op, tmp, env) == c;
    CombineFactors(op, c, Val(f1, env), c, c, Val(f2, env));
    EliminateYnValue(f1, env);
    EliminateYnValue(f2, env);
  }
}
