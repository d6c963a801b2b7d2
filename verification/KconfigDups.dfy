/**
  expr_eliminate_dups: joining operands of AND and OR chains.

  The C code walks one tree through two slots at once, and both slots start at
  the same node.  Here a slot is a path into the tree held in ExprTree.root.
 */
module KconfigDups {
  import opened Options
  import opened KconfigExpr
  import opened KconfigEq
  import opened KconfigTransform

  // ---------------------------------------------------------------------
  // expr_join_or and expr_join_and

  /** The symbol a comparison, a symbol or a (limited) negation talks about. */
  function Subject(e: Expr, deep: bool): Option<Symbol> {
    match e
    case Symb(s) => Some(s)
    case Equal(a, _) => Some(a)
    case Unequal(a, _) => Some(a)
    case Not(Symb(s)) => Some(s)
    case Not(Equal(a, _)) => if deep then Some(a) else None
    case Not(Unequal(a, _)) => if deep then Some(a) else None
    case _ => None
  }

  /** {e1.rhs, e2.rhs} is {a, b}, in either order. */
  predicate Against(e1: Expr, e2: Expr, a: Symbol, b: Symbol)
    requires e1.IsCompare() && e2.IsCompare()
  {
    (e1.rhs == a && e2.rhs == b) || (e1.rhs == b && e2.rhs == a)
  }

  function JoinOr(e1: Expr, e2: Expr): Option<Expr> {
    if ExprEq(e1, e2) then Some(e1) else
    var sym1, sym2 := Subject(e1, true), Subject(e2, false);
    if sym1.None? || sym1 != sym2 then None else
    var sym := sym1.value;
    if sym.HasType(Tristate) && e1.Equal? && e2.Equal? && Against(e1, e2, YesSym, ModSym) then Some(Unequal(sym, NoSym))
    else if sym.HasType(Tristate) && e1.Equal? && e2.Equal? && Against(e1, e2, YesSym, NoSym)
      then Some(Unequal(sym, ModSym))
    else if sym.HasType(Tristate) && e1.Equal? && e2.Equal? && Against(e1, e2, ModSym, NoSym)
      then Some(Unequal(sym, YesSym))
    else if sym.HasType(Boolean) && ((e1 == Not(Symb(sym)) && e2.Symb?) || (e2 == Not(Symb(sym)) && e1.Symb?))
      then Some(Symb(YesSym))
    else None
  }

  /** e1 is the bare symbol and e2 compares it with c, in either order. */
  predicate SymbolAndCompare(e1: Expr, e2: Expr, equal: bool, c: Symbol) {
    (e1.Symb? && e2.IsCompare() && e2.Equal? == equal && e2.rhs == c) ||
    (e2.Symb? && e1.IsCompare() && e1.Equal? == equal && e1.rhs == c)
  }

  /** a = b together with a != c. */
  function JoinEqualUnequal(sym: Symbol, b: Symbol, c: Symbol): Expr {
    if b != c then Equal(sym, b) else Symb(NoSym)
  }

  function JoinAnd(e1: Expr, e2: Expr): Option<Expr> {
    if ExprEq(e1, e2) then Some(e1) else
    var sym1, sym2 := Subject(e1, true), Subject(e2, false);
    if sym1.None? || sym1 != sym2 then None else
    var sym := sym1.value;
    if !sym.HasType(Boolean) && !sym.HasType(Tristate) then None
    else if SymbolAndCompare(e1, e2, true, YesSym) then Some(Equal(sym, YesSym))
    else if SymbolAndCompare(e1, e2, false, NoSym) then Some(Symb(sym))
    else if SymbolAndCompare(e1, e2, false, ModSym) then Some(Equal(sym, YesSym))
    else if !sym.HasType(Tristate) then None
    else if e1.Equal? && e2.Unequal? && e1.rhs.IsConst() && e2.rhs.IsConst()
      then Some(JoinEqualUnequal(sym, e1.rhs, e2.rhs))
    else if e1.Unequal? && e2.Equal? && e1.rhs.IsConst() && e2.rhs.IsConst()
      then Some(JoinEqualUnequal(sym, e2.rhs, e1.rhs))
    else if e1.Unequal? && e2.Unequal? && Against(e1, e2, YesSym, NoSym) then Some(Equal(sym, ModSym))
    else if e1.Unequal? && e2.Unequal? && Against(e1, e2, YesSym, ModSym) then Some(Equal(sym, NoSym))
    else if e1.Unequal? && e2.Unequal? && Against(e1, e2, ModSym, NoSym) then Some(Equal(sym, YesSym))
    else None
  }

  function Join(op: Junction, e1: Expr, e2: Expr): Option<Expr> {
    if op.Disj? then JoinOr(e1, e2) else JoinAnd(e1, e2)
  }

  /** What a comparison of a tristate or boolean symbol with a built-in constant is worth. */
  lemma CompareValue(e: Expr, env: Env)
    requires e.IsCompare() && (e.lhs.HasType(Boolean) || e.lhs.HasType(Tristate)) && e.rhs.IsBuiltin()
    ensures Val(e, env) == Truth((TriOf(env, e.lhs) == TriOf(env, e.rhs)) == e.Equal?)
  {
    CompareIsTri(env, e.lhs, e.rhs);
  }

  lemma JoinOrValue(e1: Expr, e2: Expr, env: Env)
    requires JoinOr(e1, e2).Some?
    ensures Val(JoinOr(e1, e2).value, env) == Disj.Apply(Val(e1, env), Val(e2, env))
  {
    if ExprEq(e1, e2) {
      ExprEqSound(e1, e2, env);
    } else {
      var j := JoinOr(e1, e2).value;
      if j.IsCompare() {
        CompareValue(e1, env);
        CompareValue(e2, env);
        CompareValue(j, env);
      }
    }
  }

  lemma JoinAndValue(e1: Expr, e2: Expr, env: Env)
    requires JoinAnd(e1, e2).Some?
    ensures Val(JoinAnd(e1, e2).value, env) == Conj.Apply(Val(e1, env), Val(e2, env))
  {
    if ExprEq(e1, e2) {
      ExprEqSound(e1, e2, env);
    } else if e1.IsCompare() && e2.IsCompare() && e1.Equal? != e2.Equal? {
      var (b, c) := if e1.Equal? then (e1.rhs, e2.rhs) else (e2.rhs, e1.rhs);
      if b != c {
        QuotedDiffers(env, b, c);
      }
    } else {
      JoinAndCompareValue(e1, e2, env);
    }
  }

  lemma JoinAndCompareValue(e1: Expr, e2: Expr, env: Env)
    requires JoinAnd(e1, e2).Some? && !ExprEq(e1, e2)
    requires !(e1.IsCompare() && e2.IsCompare() && e1.Equal? != e2.Equal?)
    ensures Val(JoinAnd(e1, e2).value, env) == Conj.Apply(Val(e1, env), Val(e2, env))
  {
    var j := JoinAnd(e1, e2).value;
    if e1.IsCompare() {
      CompareValue(e1, env);
    }
    if e2.IsCompare() {
      CompareValue(e2, env);
    }
    if j.IsCompare() {
      CompareValue(j, env);
    }
  }

  /** A join stands for both operands under every assignment. */
  lemma JoinValue(op: Junction, e1: Expr, e2: Expr, env: Env)
    requires Join(op, e1, e2).Some?
    ensures Val(Join(op, e1, e2).value, env) == op.Apply(Val(e1, env), Val(e2, env))
  {
    if op.Disj? {
      JoinOrValue(e1, e2, env);
    } else {
      JoinAndValue(e1, e2, env);
    }
  }

  /** A join never has more operands than its first argument and is never a chain of the joined kind. */
  lemma JoinShape(op: Junction, e1: Expr, e2: Expr)
    requires Join(op, e1, e2).Some? && !e1.IsJunct(op)
    ensures Join(op, e1, e2).value.Leaves() <= e1.Leaves()
    ensures !Join(op, e1, e2).value.IsJunct(op)
  {
  }

  /** Joining finds every repeated operand and every pair of constant tests of one tristate symbol it can merge. */
  lemma JoinFinds(op: Junction, e: Expr, a: Symbol, c1: Symbol, c2: Symbol, c3: Symbol)
    requires a.HasType(Tristate) && {c1, c2, c3} == {YesSym, ModSym, NoSym}
    ensures Join(op, e, e) == Some(e)
    ensures JoinOr(Equal(a, c1), Equal(a, c2)) == Some(Unequal(a, c3))
    ensures JoinAnd(Unequal(a, c1), Unequal(a, c2)) == Some(Equal(a, c3))
    ensures JoinAnd(Equal(a, c1), Unequal(a, c2)) == Some(Equal(a, c1)) == JoinAnd(Unequal(a, c2), Equal(a, c1))
    ensures JoinAnd(Equal(a, c1), Unequal(a, c1)) == Some(Symb(NoSym))
  {
    ExprEqReflexive(e);
    assert c1 in {c1, c2, c3} && c2 in {c1, c2, c3} && c3 in {c1, c2, c3};
    assert YesSym in {c1, c2, c3} && ModSym in {c1, c2, c3} && NoSym in {c1, c2, c3};
  }

  /** Operands that differ only in nesting and order are joined. */
  lemma JoinFindsRepeated(op: Junction, e1: Expr, e2: Expr)
    requires YnFree(e1) && YnFree(e2) && KeyOf(e1) == KeyOf(e2)
    ensures Join(op, e1, e2) == Some(e1)
  {
    ExprEqKey(e1, e2);
  }

  /** So is a symbol with a test of it that decides it, and a boolean symbol with its negation. */
  lemma JoinFindsSymbol(a: Symbol)
    requires a.HasType(Boolean) || a.HasType(Tristate)
    ensures JoinAnd(Symb(a), Equal(a, YesSym)) == Some(Equal(a, YesSym)) == JoinAnd(Equal(a, YesSym), Symb(a))
    ensures JoinAnd(Symb(a), Unequal(a, NoSym)) == Some(Symb(a)) == JoinAnd(Unequal(a, NoSym), Symb(a))
    ensures JoinAnd(Symb(a), Unequal(a, ModSym)) == Some(Equal(a, YesSym)) == JoinAnd(Unequal(a, ModSym), Symb(a))
    ensures a.HasType(Boolean) ==>
      JoinOr(Symb(a), Not(Symb(a))) == Some(Symb(YesSym)) == JoinOr(Not(Symb(a)), Symb(a))
  {
  }

  /** A join of transformed operands is transformed. */
  lemma JoinTransformed(op: Junction, e1: Expr, e2: Expr)
    requires Join(op, e1, e2).Some? && Transformed(e1) && Transformed(e2)
    ensures Transformed(Join(op, e1, e2).value)
  {
  }

  // ---------------------------------------------------------------------
  // Slots: paths into a tree of AND and OR nodes

  datatype Side = L | R

  type Path = seq<Side>

  function Child(e: Expr, d: Side): Expr
    requires e.Junct?
  {
    if d.L? then e.left else e.right
  }

  predicate Has(e: Expr, p: Path) {
    p == [] || (e.Junct? && Has(Child(e, p[0]), p[1..]))
  }

  function At(e: Expr, p: Path): Expr
    requires Has(e, p)
  {
    if p == [] then e else At(Child(e, p[0]), p[1..])
  }

  function Put(e: Expr, p: Path, x: Expr): (r: Expr)
    requires Has(e, p)
    ensures Has(r, p) && At(r, p) == x
  {
    if p == [] then x
    else if p[0].L? then Junct(e.op, Put(e.left, p[1..], x), e.right)
    else Junct(e.op, e.left, Put(e.right, p[1..], x))
  }

  lemma {:induction false} AtTransformed(e: Expr, p: Path)
    requires Has(e, p) && Transformed(e)
    ensures Transformed(At(e, p))
  {
    if p != [] {
      AtTransformed(Child(e, p[0]), p[1..]);
    }
  }

  lemma {:induction false} PutTransformed(e: Expr, p: Path, x: Expr)
    requires Has(e, p) && Transformed(e) && Transformed(x)
    ensures Transformed(Put(e, p, x))
  {
    if p != [] {
      PutTransformed(Child(e, p[0]), p[1..], x);
    }
  }

  /** The path runs through op nodes only. */
  predicate Spine(op: Junction, e: Expr, p: Path)
    ensures Spine(op, e, p) ==> Has(e, p)
  {
    p == [] || (e.IsJunct(op) && Spine(op, Child(e, p[0]), p[1..]))
  }

  /** The path leads to an operand of the op-chain e. */
  predicate Operand(op: Junction, e: Expr, p: Path) {
    Spine(op, e, p) && !At(e, p).IsJunct(op)
  }

  lemma {:induction false} AtConcat(e: Expr, p: Path, r: Path)
    requires Has(e, p)
    ensures Has(e, p + r) <==> Has(At(e, p), r)
    ensures Has(e, p + r) ==> At(e, p + r) == At(At(e, p), r)
  {
    if p == [] {
      assert p + r == r;
    } else {
      assert (p + r)[1..] == p[1..] + r;
      AtConcat(Child(e, p[0]), p[1..], r);
    }
  }

  lemma {:induction false} PutConcat(e: Expr, p: Path, r: Path, x: Expr)
    requires Has(e, p) && Has(At(e, p), r)
    ensures Has(e, p + r) && Put(e, p + r, x) == Put(e, p, Put(At(e, p), r, x))
  {
    AtConcat(e, p, r);
    if p == [] {
      assert p + r == r;
    } else {
      assert (p + r)[1..] == p[1..] + r;
      PutConcat(Child(e, p[0]), p[1..], r, x);
    }
  }

  lemma {:induction false} PutPut(e: Expr, p: Path, x: Expr, y: Expr)
    requires Has(e, p)
    ensures Put(Put(e, p, x), p, y) == Put(e, p, y)
    ensures Put(e, p, At(e, p)) == e
  {
    if p != [] {
      PutPut(Child(e, p[0]), p[1..], x, y);
    }
  }

  lemma {:induction false} SpineStep(op: Junction, e: Expr, r: Path, d: Side)
    requires Spine(op, e, r)
    ensures Spine(op, e, r + [d]) <==> At(e, r).IsJunct(op)
    ensures At(e, r).IsJunct(op) ==> At(e, r + [d]) == Child(At(e, r), d)
  {
    if r == [] {
      assert (r + [d])[1..] == [];
    } else {
      assert (r + [d])[1..] == r[1..] + [d];
      SpineStep(op, Child(e, r[0]), r[1..], d);
    }
  }

  /** Two different operands of a chain are separate subtrees. */
  lemma {:induction false} OperandsSeparate(op: Junction, e: Expr, a: Path, b: Path, x: Expr)
    requires Operand(op, e, a) && Spine(op, e, b) && a != b && !(b <= a)
    ensures Spine(op, Put(e, a, x), b) && At(Put(e, a, x), b) == At(e, b)
  {
    if a != [] && b != [] && a[0] == b[0] {
      assert a == [a[0]] + a[1..] && b == [b[0]] + b[1..];
      OperandsSeparate(op, Child(e, a[0]), a[1..], b[1..], x);
    }
  }

  // ---------------------------------------------------------------------
  // Rewriting operands of a chain

  /** Both are op-chains of the same shape. */
  predicate SameSpine(op: Junction, s: Expr, t: Expr) {
    s.IsJunct(op) == t.IsJunct(op) &&
    (s.IsJunct(op) ==> SameSpine(op, s.left, t.left) && SameSpine(op, s.right, t.right))
  }

  lemma {:induction false} SameSpineRefl(op: Junction, s: Expr)
    ensures SameSpine(op, s, s)
  {
    if s.IsJunct(op) {
      SameSpineRefl(op, s.left);
      SameSpineRefl(op, s.right);
    }
  }

  lemma {:induction false} SameSpineTrans(op: Junction, s: Expr, t: Expr, u: Expr)
    requires SameSpine(op, s, t) && SameSpine(op, t, u)
    ensures SameSpine(op, s, u)
  {
    if s.IsJunct(op) {
      SameSpineTrans(op, s.left, t.left, u.left);
      SameSpineTrans(op, s.right, t.right, u.right);
    }
  }

  lemma {:induction false} SameSpineAt(op: Junction, s: Expr, t: Expr, r: Path)
    requires SameSpine(op, s, t) && Spine(op, s, r)
    ensures Spine(op, t, r) && SameSpine(op, At(s, r), At(t, r))
  {
    if r != [] {
      SameSpineAt(op, Child(s, r[0]), Child(t, r[0]), r[1..]);
    }
  }

  /** Number of op nodes of the chain. */
  function SpineNodes(op: Junction, e: Expr): nat {
    if e.IsJunct(op) then 1 + SpineNodes(op, e.left) + SpineNodes(op, e.right) else 0
  }

  lemma {:induction false} SameSpineNodes(op: Junction, s: Expr, t: Expr)
    requires SameSpine(op, s, t)
    ensures SpineNodes(op, s) == SpineNodes(op, t)
  {
    if s.IsJunct(op) {
      SameSpineNodes(op, s.left, t.left);
      SameSpineNodes(op, s.right, t.right);
    }
  }

  lemma {:induction false} PutOperandSpine(op: Junction, s: Expr, r: Path, x: Expr)
    requires Operand(op, s, r) && !x.IsJunct(op)
    ensures SameSpine(op, s, Put(s, r, x))
  {
    if r != [] {
      SameSpineRefl(op, s.left);
      SameSpineRefl(op, s.right);
      PutOperandSpine(op, Child(s, r[0]), r[1..], x);
    }
  }

  lemma {:induction false} LeavesPut(s: Expr, r: Path, x: Expr)
    requires Has(s, r)
    ensures Put(s, r, x).Leaves() == s.Leaves() - At(s, r).Leaves() + x.Leaves()
    ensures At(s, r).Leaves() <= s.Leaves()
  {
    if r != [] {
      LeavesPut(Child(s, r[0]), r[1..], x);
    }
  }

  /** No subtree along r has gained operands. */
  predicate Shrunk(s: Expr, t: Expr, r: Path) {
    t.Leaves() <= s.Leaves() &&
    (r == [] || (s.Junct? && t.Junct? && Shrunk(Child(s, r[0]), Child(t, r[0]), r[1..])))
  }

  lemma {:induction false} ShrunkRefl(s: Expr, r: Path)
    requires Has(s, r)
    ensures Shrunk(s, s, r)
  {
    if r != [] {
      ShrunkRefl(Child(s, r[0]), r[1..]);
    }
  }

  lemma {:induction false} ShrunkTrans(s: Expr, t: Expr, u: Expr, r: Path)
    requires Shrunk(s, t, r) && Shrunk(t, u, r)
    ensures Shrunk(s, u, r)
  {
    if r != [] {
      ShrunkTrans(Child(s, r[0]), Child(t, r[0]), Child(u, r[0]), r[1..]);
    }
  }

  lemma {:induction false} ShrunkPrefix(s: Expr, t: Expr, r: Path, d: Side)
    requires Shrunk(s, t, r + [d])
    ensures Shrunk(s, t, r)
  {
    if r != [] {
      assert (r + [d])[1..] == r[1..] + [d];
      ShrunkPrefix(Child(s, r[0]), Child(t, r[0]), r[1..], d);
    }
  }

  lemma {:induction false} ShrunkAt(s: Expr, t: Expr, r: Path)
    requires Shrunk(s, t, r) && Has(s, r) && Has(t, r)
    ensures At(t, r).Leaves() <= At(s, r).Leaves()
  {
    if r != [] {
      ShrunkAt(Child(s, r[0]), Child(t, r[0]), r[1..]);
    }
  }

  lemma {:induction false} PutShrinks(s: Expr, r: Path, x: Expr)
    requires Has(s, r) && x.Leaves() <= At(s, r).Leaves()
    ensures Shrunk(s, Put(s, r, x), r)
  {
    LeavesPut(s, r, x);
    if r != [] {
      PutShrinks(Child(s, r[0]), r[1..], x);
    }
  }

  /** The result of joining operand a into operand b. */
  function Joined(op: Junction, s: Expr, a: Path, b: Path, j: Expr): Expr
    requires Operand(op, s, a) && Operand(op, s, b) && a != b
  {
    NotPrefix(op, s, a, b);
    OperandsSeparate(op, s, a, b, Symb(op.Unit()));
    Put(Put(s, a, Symb(op.Unit())), b, j)
  }

  lemma {:induction false} NotPrefix(op: Junction, s: Expr, a: Path, b: Path)
    requires Spine(op, s, a) && Operand(op, s, b) && a != b
    ensures !(b <= a)
  {
    if b != [] && a != [] && a[0] == b[0] {
      assert a == [a[0]] + a[1..] && b == [b[0]] + b[1..];
      NotPrefix(op, Child(s, a[0]), a[1..], b[1..]);
    }
  }

  /** The two operands are on different sides of the root. */
  lemma JoinedApart(op: Junction, s: Expr, a: Path, b: Path, j: Expr)
    requires Operand(op, s, a) && Operand(op, s, b) && a != [] && b != [] && a[0] != b[0]
    requires j.Leaves() <= At(s, a).Leaves() && !j.IsJunct(op)
    ensures Shrunk(s, Joined(op, s, a, b, j), a)
    ensures SameSpine(op, s, Joined(op, s, a, b, j))
    ensures HasYnOperand(Joined(op, s, a, b, j))
  {
    var u := Symb(op.Unit());
    var ca, cb := Child(s, a[0]), Child(s, b[0]);
    PutShrinks(ca, a[1..], u);
    LeavesPut(ca, a[1..], u);
    LeavesPut(cb, b[1..], j);
    PutOperandSpine(op, ca, a[1..], u);
    PutOperandSpine(op, cb, b[1..], j);
    PutYn(ca, a[1..], u);
  }

  lemma {:induction false} JoinedShrinks(op: Junction, s: Expr, a: Path, b: Path, j: Expr)
    requires Operand(op, s, a) && Operand(op, s, b) && a != b
    requires j.Leaves() <= At(s, a).Leaves() && !j.IsJunct(op)
    ensures Shrunk(s, Joined(op, s, a, b, j), a)
    ensures SameSpine(op, s, Joined(op, s, a, b, j))
    ensures HasYnOperand(Joined(op, s, a, b, j))
  {
    if a[0] == b[0] {
      assert a == [a[0]] + a[1..] && b == [b[0]] + b[1..];
      JoinedShrinks(op, Child(s, a[0]), a[1..], b[1..], j);
      SameSpineRefl(op, s.left);
      SameSpineRefl(op, s.right);
      assert Joined(op, s, a, b, j) == Put(s, a[..1], Joined(op, Child(s, a[0]), a[1..], b[1..], j));
    } else {
      JoinedApart(op, s, a, b, j);
    }
  }

  /** Writing y or n into an operand leaves a constant for folding to find. */
  lemma {:induction false} PutYn(s: Expr, r: Path, x: Expr)
    requires Has(s, r)
    ensures IsYn(x) && r != [] ==> HasYnOperand(Put(s, r, x))
    ensures HasYnOperand(x) ==> HasYnOperand(Put(s, r, x))
  {
    if r != [] {
      PutYn(Child(s, r[0]), r[1..], x);
    }
  }

  // ---------------------------------------------------------------------
  // Values of rewritten chains

  /** The other operands contribute a value c that does not depend on what stands at r. */
  lemma {:induction false} SpineRest(op: Junction, s: Expr, r: Path, env: Env) returns (c: Tri)
    requires Spine(op, s, r)
    ensures forall x :: Val(Put(s, r, x), env) == op.Apply(Val(x, env), c)
  {
    if r == [] {
      c := TriOf(env, op.Unit());
      forall x ensures Val(Put(s, r, x), env) == op.Apply(Val(x, env), c) {
        UnitIsNeutral(op, Val(x, env), env);
      }
    } else {
      var c' := SpineRest(op, Child(s, r[0]), r[1..], env);
      var other := if r[0].L? then s.right else s.left;
      c := op.Apply(c', Val(other, env));
      forall x ensures Val(Put(s, r, x), env) == op.Apply(Val(x, env), c) {
        assert Val(Put(Child(s, r[0]), r[1..], x), env) == op.Apply(Val(x, env), c');
      }
    }
  }

  lemma JoinedValue(op: Junction, s: Expr, a: Path, b: Path, j: Expr, env: Env)
    requires Operand(op, s, a) && Operand(op, s, b) && a != b
    requires Val(j, env) == op.Apply(Val(At(s, a), env), Val(At(s, b), env))
    ensures Val(Joined(op, s, a, b, j), env) == Val(s, env)
  {
    NotPrefix(op, s, a, b);
    var u := Symb(op.Unit());
    OperandsSeparate(op, s, a, b, u);
    var t := Put(s, a, u);
    var c1 := SpineRest(op, s, a, env);
    PutPut(s, a, u, u);
    assert Val(s, env) == op.Apply(Val(At(s, a), env), c1);
    assert Val(t, env) == op.Apply(Val(u, env), c1) == c1 by { UnitIsNeutral(op, c1, env); }
    var c2 := SpineRest(op, t, b, env);
    PutPut(t, b, u, u);
    assert Val(t, env) == op.Apply(Val(At(s, b), env), c2);
    ApplyAssoc(op, Val(At(s, a), env), Val(At(s, b), env), c2);
  }

  lemma ApplyAssoc(op: Junction, a: Tri, b: Tri, c: Tri)
    ensures op.Apply(op.Apply(a, b), c) == op.Apply(a, op.Apply(b, c))
  {
  }

  lemma JoinedSame(op: Junction, s: Expr, a: Path, b: Path)
    requires Operand(op, s, a) && Operand(op, s, b) && a != b
    requires Join(op, At(s, a), At(s, b)).Some?
    ensures Same(s, Joined(op, s, a, b, Join(op, At(s, a), At(s, b)).value))
  {
    var j := Join(op, At(s, a), At(s, b)).value;
    forall env: Env ensures Val(s, env) == Val(Joined(op, s, a, b, j), env) {
      JoinValue(op, At(s, a), At(s, b), env);
      JoinedValue(op, s, a, b, j, env);
    }
  }

  lemma {:induction false} PutSame(s: Expr, r: Path, x: Expr)
    requires Has(s, r) && Same(At(s, r), x)
    ensures Same(s, Put(s, r, x))
  {
    if r != [] {
      PutSame(Child(s, r[0]), r[1..], x);
    }
  }

  lemma {:induction false} PutSameUnlessMod(s: Expr, r: Path, x: Expr)
    requires Has(s, r) && SameUnlessMod(At(s, r), x)
    ensures SameUnlessMod(s, Put(s, r, x))
  {
    if r != [] {
      PutSameUnlessMod(Child(s, r[0]), r[1..], x);
    }
  }

  /** In particular a rewriting that only disturbs m keeps the value wherever no symbol operand is m. */
  lemma TwoValuedKept(e: Expr, r: Expr, env: Env)
    requires SameUnlessMod(e, r) && TwoValued(e, env)
    ensures Val(r, env) == Val(e, env)
  {
    TwoValuedReading(e, env, 0);
  }

  // ---------------------------------------------------------------------
  // The two-valued step of expr_eliminate_dups2

  /** e2 already contains the negation of the (dual) chain e1. */
  predicate Contradicts(op: Junction, e1: Expr, e2: Expr) {
    e1.IsJunct(op.Dual()) && Extract(op, Transform(Not(e1)), e2).1 == Symb(op.Unit())
  }

  lemma ContradictsBound(op: Junction, e1: Expr, e2: Expr, env: Env)
    requires Contradicts(op, e1, e2)
    ensures op.Apply(Val(e2, env), Complement(Val(e1, env))) == Val(e2, env)
  {
    NegatedValue(e1, env);
    ExtractedBound(op, Transform(Not(e1)), e2, env);
  }

  /** The value of a negation. */
  function Complement(t: Tri): Tri {
    2 - t
  }

  lemma NegatedValue(e: Expr, env: Env)
    ensures Val(Transform(Not(e)), env) == Complement(Val(e, env))
  {
    TransformValue(Not(e), env);
  }

  /** What is extracted completely bounds the other side. */
  lemma ExtractedBound(op: Junction, n: Expr, e: Expr, env: Env)
    requires Extract(op, n, e).1 == Symb(op.Unit())
    ensures op.Apply(Val(e, env), Val(n, env)) == Val(e, env)
  {
    ExtractFactors(op, n, e, env);
    var (acc, f1, f2) := Extract(op, n, e);
    UnitIsNeutral(op, AccVal(op, acc, env), env);
  }

  lemma SpineBound(op: Junction, s: Expr, r: Path, env: Env)
    requires Spine(op, s, r)
    ensures op.Apply(Val(s, env), Val(At(s, r), env)) == Val(s, env)
  {
    var c := SpineRest(op, s, r, env);
    PutPut(s, r, s, s);
  }

  lemma BoundedByBoth(op: Junction, s: Tri, e1: Tri, e2: Tri, c: Tri, v: Tri, env: Env)
    requires op.Apply(s, e1) == s && op.Apply(s, e2) == s && op.Apply(e2, Complement(e1)) == e2
    requires v == op.Apply(TriOf(env, op.Dual().Unit()), c)
    ensures v == s <==> s != 1
  {
  }

  lemma CutValue(op: Junction, s: Expr, a: Path, env: Env) returns (c: Tri)
    requires Operand(op, s, a)
    ensures Val(Put(s, a, Symb(op.Dual().Unit())), env) == op.Apply(TriOf(env, op.Dual().Unit()), c)
  {
    c := SpineRest(op, s, a, env);
  }

  lemma BoundedOperand(op: Junction, s: Expr, a: Path, b: Path, env: Env)
    requires Operand(op, s, a) && Spine(op, s, b)
    requires op.Apply(Val(At(s, b), env), Complement(Val(At(s, a), env))) == Val(At(s, b), env)
    ensures Val(Put(s, a, Symb(op.Dual().Unit())), env) == Val(s, env) <==> Val(s, env) != 1
  {
    SpineBound(op, s, a, env);
    SpineBound(op, s, b, env);
    var c := CutValue(op, s, a, env);
    var v := Val(Put(s, a, Symb(op.Dual().Unit())), env);
    BoundedByBoth(op, Val(s, env), Val(At(s, a), env), Val(At(s, b), env), c, v, env);
  }

  /** Replacing a contradicted operand changes the chain exactly where the chain is m. */
  lemma ContradictionExact(op: Junction, s: Expr, a: Path, b: Path, env: Env)
    requires Operand(op, s, a) && Spine(op, s, b) && Contradicts(op, At(s, a), At(s, b))
    ensures Val(Put(s, a, Symb(op.Dual().Unit())), env) == Val(s, env) <==> Val(s, env) != 1
  {
    ContradictsBound(op, At(s, a), At(s, b), env);
    BoundedOperand(op, s, a, b, env);
  }

  /** (A || B) && (!A && !B) is rewritten to n although it is m when A is m and B is n. */
  lemma ContradictionModWitness()
    ensures var a, b := Symb(Config(0, Tristate)), Symb(Config(1, Tristate));
      var e := Junct(Conj, Junct(Disj, a, b), Junct(Conj, Not(a), Not(b)));
      && Contradicts(Conj, At(e, [L]), At(e, [R]))
      && Val(e, Env(i => if i == 0 then 1 else 0, _ => "")) == 1
      && Val(Put(e, [L], Symb(NoSym)), Env(i => if i == 0 then 1 else 0, _ => "")) == 0
  {
    var a, b := Symb(Config(0, Tristate)), Symb(Config(1, Tristate));
    var n := Junct(Conj, Not(a), Not(b));
    var e := Junct(Conj, Junct(Disj, a, b), n);
    assert Negation(Junct(Disj, a, b)) == n by { assert Negation(a) == Not(a) && Negation(b) == Not(b); }
    NegatedContradicts(Conj, Junct(Disj, a, b));
    ModValues(a, b);
    assert Put(e, [L], Symb(NoSym)) == Junct(Conj, Symb(NoSym), n);
    assert At(e, [L]) == Junct(Disj, a, b) && At(e, [R]) == n;
  }

  lemma ModValues(a: Expr, b: Expr)
    requires a == Symb(Config(0, Tristate)) && b == Symb(Config(1, Tristate))
    ensures var n, env := Junct(Conj, Not(a), Not(b)), Env(i => if i == 0 then 1 else 0, _ => "");
      Val(Junct(Conj, Junct(Disj, a, b), n), env) == 1 && Val(Junct(Conj, Symb(NoSym), n), env) == 0
  {
    var n, env := Junct(Conj, Not(a), Not(b)), Env(i => if i == 0 then 1 else 0, _ => "");
    assert Val(a, env) == 1 && Val(b, env) == 0 && Val(Not(a), env) == 1 && Val(Not(b), env) == 2;
    assert Val(n, env) == 1 && Val(Junct(Disj, a, b), env) == 1;
  }

  /** The negation of a transformed expression, pushed down to its operands. */
  function Negation(e: Expr): Expr {
    match e
    case Symb(YesSym) => Symb(NoSym)
    case Symb(NoSym) => Symb(YesSym)
    case Symb(ModSym) => Symb(ModSym)
    case Symb(s) => Not(Symb(s))
    case Not(a) => a
    case Equal(a, b) => Unequal(a, b)
    case Unequal(a, b) => Equal(a, b)
    case Junct(op, l, r) => Junct(op.Dual(), Negation(l), Negation(r))
  }

  lemma {:induction false} TransformNegation(e: Expr)
    requires Transformed(e)
    ensures Transform(Not(e)) == Negation(e)
  {
    TransformFixpoint(e);
    if e.Junct? {
      TransformNegation(e.left);
      TransformNegation(e.right);
      assert Transform(Not(e)) == Transform(Junct(e.op.Dual(), Not(e.left), Not(e.right)));
    } else if e.Not? {
      TransformFixpoint(e.arg);
    }
  }

  lemma {:induction false} NegationYnFree(e: Expr)
    requires Transformed(e) && YnFree(e)
    ensures YnFree(Negation(e)) && (IsYn(Negation(e)) <==> IsYn(e))
  {
    if e.Junct? {
      NegationYnFree(e.left);
      NegationYnFree(e.right);
    }
  }

  /** A chain is cut exactly if the negations of its operands are all among the operands of the other side. */
  lemma ContradictsIff(op: Junction, e1: Expr, e2: Expr)
    requires Transformed(e1) && YnFree(e1) && YnFree(e2) && !IsYn(e2)
    ensures Contradicts(op, e1, e2) <==> e1.IsJunct(op.Dual()) && Keys(op, Negation(e1)) <= Keys(op, e2)
  {
    if e1.IsJunct(op.Dual()) {
      TransformNegation(e1);
      NegationYnFree(e1);
      ExtractKeys(op, Negation(e1), e2);
    }
  }

  /** In particular a disjunction is cut next to its negation, and so is a conjunction. */
  lemma NegatedContradicts(op: Junction, e: Expr)
    requires e.IsJunct(op.Dual()) && Transformed(e) && YnFree(e)
    ensures Contradicts(op, e, Negation(e))
  {
    NegationYnFree(e);
    ContradictsIff(op, e, Negation(e));
  }

  // ---------------------------------------------------------------------
  // What one pass over two slots achieves

  /** No operand below r1 can be joined with a different operand below r2. */
  ghost predicate Unjoinable(op: Junction, s: Expr, r1: Path, r2: Path) {
    forall a: Path, b: Path {:trigger Operand(op, s, a), Operand(op, s, b)} ::
      Operand(op, s, a) && Operand(op, s, b) && r1 <= a && r2 <= b && a != b ==>
        Join(op, At(s, a), At(s, b)).None?
  }

  /** No two operands of the chain e, nor of any chain nested in it, can be joined. */
  ghost predicate Settled(e: Expr)
    decreases e.Size(), 1
  {
    e.Junct? ==> Unjoinable(e.op, e, [], []) && SettledOperands(e.op, e)
  }

  ghost predicate SettledOperands(op: Junction, e: Expr)
    decreases e.Size(), if e.IsJunct(op) then 0 else 2
  {
    if e.IsJunct(op) then SettledOperands(op, e.left) && SettledOperands(op, e.right) else Settled(e)
  }

  ghost predicate SettledBelow(op: Junction, s: Expr, r1: Path, r2: Path) {
    forall a: Path :: Operand(op, s, a) && r1 <= a && a != r2 ==> Settled(At(s, a))
  }

  /** Effect of expr_eliminate_dups1 on the chain s, which becomes t; changed tells whether trans_count moved. */
  ghost predicate JoinPass(op: Junction, s: Expr, t: Expr, r1: Path, r2: Path, changed: bool) {
    && SameSpine(op, s, t)
    && Same(s, t)
    && (Transformed(s) ==> Transformed(t))
    && Shrunk(s, t, r1)
    && (changed ==> HasYnOperand(t))
    && (!changed ==> t == s && Unjoinable(op, s, r1, r2) && SettledBelow(op, s, r1, r2))
  }

  /** Below an op node every operand lies on the left or on the right. */
  lemma {:induction false} OperandBelow(op: Junction, s: Expr, r: Path, a: Path)
    requires Spine(op, s, r) && Operand(op, s, a) && r <= a
    ensures At(s, r).IsJunct(op) ==> r + [L] <= a || r + [R] <= a
    ensures !At(s, r).IsJunct(op) ==> a == r
  {
    if r == [] {
      if s.IsJunct(op) {
        assert a == [a[0]] + a[1..];
      }
    } else {
      assert a == [a[0]] + a[1..] && r == [r[0]] + r[1..];
      OperandBelow(op, Child(s, r[0]), r[1..], a[1..]);
    }
  }

  lemma JoinPassSplitFirst(op: Junction, s: Expr, t: Expr, u: Expr, r1: Path, r2: Path, c1: bool, c2: bool)
    requires Spine(op, s, r1) && At(s, r1).IsJunct(op)
    requires JoinPass(op, s, t, r1 + [L], r2, c1) && JoinPass(op, t, u, r1 + [R], r2, c2)
    ensures JoinPass(op, s, u, r1, r2, c1 || c2)
  {
    SameSpineTrans(op, s, t, u);
    ShrunkPrefix(s, t, r1, L);
    ShrunkPrefix(t, u, r1, R);
    ShrunkTrans(s, t, u, r1);
    if !c1 && !c2 {
      forall a: Path | Operand(op, s, a) && r1 <= a ensures r1 + [L] <= a || r1 + [R] <= a {
        OperandBelow(op, s, r1, a);
      }
    }
  }

  lemma JoinPassSplitSecond(op: Junction, s: Expr, t: Expr, u: Expr, r1: Path, r2: Path, c1: bool, c2: bool)
    requires Operand(op, s, r1) && Spine(op, s, r2) && At(s, r2).IsJunct(op)
    requires JoinPass(op, s, t, r1, r2 + [L], c1) && JoinPass(op, t, u, r1, r2 + [R], c2)
    ensures JoinPass(op, s, u, r1, r2, c1 || c2)
  {
    SameSpineTrans(op, s, t, u);
    ShrunkTrans(s, t, u, r1);
    if !c1 && !c2 {
      forall b: Path | Operand(op, s, b) && r2 <= b ensures r2 + [L] <= b || r2 + [R] <= b {
        OperandBelow(op, s, r2, b);
      }
      assert r2 + [L] != r2 + [R] by { assert (r2 + [L])[|r2|] != (r2 + [R])[|r2|]; }
    }
  }

  /** Tidying up one operand and joining it with another keep the transformed form. */
  lemma OperandsTransformed(op: Junction, s: Expr, x: Expr, a: Path, b: Path)
    requires Operand(op, s, a) && Operand(op, s, b) && a != b
    requires Transformed(At(s, a)) ==> Transformed(x)
    requires Operand(op, Put(s, a, x), a) && Operand(op, Put(s, a, x), b) && At(Put(s, a, x), b) == At(s, b)
    ensures Transformed(s) ==> Transformed(Put(s, a, x))
    ensures var s' := Put(s, a, x);
      match Join(op, x, At(s, b))
      case Some(j) => Transformed(s) ==> Transformed(Joined(op, s', a, b, j))
      case None => true
  {
    if Transformed(s) {
      AtTransformed(s, a);
      AtTransformed(s, b);
      PutTransformed(s, a, x);
      var s', u := Put(s, a, x), Symb(op.Unit());
      if Join(op, x, At(s, b)).Some? {
        JoinTransformed(op, x, At(s, b));
        NotPrefix(op, s', a, b);
        OperandsSeparate(op, s', a, b, u);
        PutTransformed(s', a, u);
        PutTransformed(Put(s', a, u), b, Join(op, x, At(s, b)).value);
      }
    }
  }

  /** One pair of operands, after the first has been tidied up on its own. */
  lemma JoinPassOperands(op: Junction, s: Expr, x: Expr, a: Path, b: Path, c1: bool)
    requires Operand(op, s, a) && Operand(op, s, b) && a != b && !x.IsJunct(op)
    requires Same(At(s, a), x) && x.Leaves() <= At(s, a).Leaves()
    requires Transformed(At(s, a)) ==> Transformed(x)
    requires c1 ==> HasYnOperand(x)
    requires !c1 ==> x == At(s, a) && Settled(x)
    ensures Operand(op, Put(s, a, x), a) && Operand(op, Put(s, a, x), b)
    ensures At(Put(s, a, x), b) == At(s, b)
    ensures var s' := Put(s, a, x);
      match Join(op, x, At(s, b))
      case Some(j) => JoinPass(op, s, Joined(op, s', a, b, j), a, b, true)
      case None => JoinPass(op, s, s', a, b, c1)
  {
    var s' := Put(s, a, x);
    PutPut(s, a, x, x);
    PutOperandSpine(op, s, a, x);
    PutSame(s, a, x);
    PutShrinks(s, a, x);
    PutYn(s, a, x);
    SameSpineAt(op, s, s', a);
    NotPrefix(op, s, a, b);
    OperandsSeparate(op, s, a, b, x);
    OperandsTransformed(op, s, x, a, b);
    match Join(op, x, At(s, b))
    case Some(j) =>
      JoinShape(op, x, At(s, b));
      JoinedShrinks(op, s', a, b, j);
      JoinedSame(op, s', a, b);
      SameSpineTrans(op, s, s', Joined(op, s', a, b, j));
      ShrunkTrans(s, s', Joined(op, s', a, b, j), a);
    case None =>
      if !c1 {
        forall a': Path | Operand(op, s, a') && a <= a' ensures a' == a { OperandBelow(op, s, a, a'); }
        forall b': Path | Operand(op, s, b') && b <= b' ensures b' == b { OperandBelow(op, s, b, b'); }
      }
  }

  lemma {:induction false} AllSettled(op: Junction, s: Expr)
    requires forall a: Path :: Operand(op, s, a) ==> Settled(At(s, a))
    ensures SettledOperands(op, s)
  {
    if s.IsJunct(op) {
      forall a: Path | Operand(op, s.left, a) ensures Settled(At(s.left, a)) {
        assert ([L] + a)[1..] == a;
        assert Operand(op, s, [L] + a);
      }
      forall a: Path | Operand(op, s.right, a) ensures Settled(At(s.right, a)) {
        assert ([R] + a)[1..] == a;
        assert Operand(op, s, [R] + a);
      }
      AllSettled(op, s.left);
      AllSettled(op, s.right);
    } else {
      assert Operand(op, s, []);
    }
  }

  /** A pass over a whole chain that changes nothing shows the chain settled. */
  lemma UnchangedIsSettled(op: Junction, s: Expr)
    requires s.IsJunct(op) && JoinPass(op, s, s, [], [], false)
    ensures Settled(s)
  {
    forall a: Path | Operand(op, s, a) ensures Settled(At(s, a)) {
      assert [] <= a && a != [];
    }
    AllSettled(op, s);
  }

  lemma JoinPassSameOperand(op: Junction, s: Expr, r: Path)
    requires Operand(op, s, r)
    ensures JoinPass(op, s, s, r, r, false)
  {
    SameSpineRefl(op, s);
    ShrunkRefl(s, r);
    forall a: Path | Operand(op, s, a) && r <= a ensures a == r { OperandBelow(op, s, r, a); }
  }

  /** Moving a slot one step down an op node. */
  lemma SlotStep(op: Junction, root: Expr, q: Path, r: Path, d: Side)
    requires Has(root, q) && Spine(op, At(root, q), r) && At(At(root, q), r).IsJunct(op)
    ensures Has(root, q + r) && At(root, q + r) == At(At(root, q), r)
    ensures Has(root, q + r + [d]) && q + r + [d] == q + (r + [d])
    ensures Spine(op, At(root, q), r + [d])
    ensures At(root, q + r + [d]) == At(At(root, q), r + [d]) == Child(At(root, q + r), d)
  {
    AtConcat(root, q, r);
    SpineStep(op, At(root, q), r, d);
    assert q + r + [d] == q + (r + [d]);
    AtConcat(root, q, r + [d]);
  }

  /** After the left half of the first slot is done, the right half is smaller than the whole was. */
  lemma AfterFirstHalf(op: Junction, s: Expr, t: Expr, r1: Path, r2: Path)
    requires Spine(op, s, r1) && Spine(op, s, r2) && At(s, r1).IsJunct(op)
    requires SameSpine(op, s, t) && Shrunk(s, t, r1 + [L])
    ensures Spine(op, t, r1) && Spine(op, t, r2) && At(t, r1).IsJunct(op)
    ensures At(t, r1).right.Leaves() < At(s, r1).Leaves()
  {
    SameSpineAt(op, s, t, r1);
    SameSpineAt(op, s, t, r2);
    ShrunkPrefix(s, t, r1, L);
    ShrunkAt(s, t, r1);
  }

  lemma AfterSecondHalf(op: Junction, s: Expr, t: Expr, r1: Path, r2: Path)
    requires Operand(op, s, r1) && Spine(op, s, r2) && At(s, r2).IsJunct(op)
    requires SameSpine(op, s, t) && Shrunk(s, t, r1)
    ensures Operand(op, t, r1) && Spine(op, t, r2) && At(t, r2).IsJunct(op)
    ensures At(t, r1).Leaves() <= At(s, r1).Leaves()
    ensures SpineNodes(op, At(t, r2).right) < SpineNodes(op, At(s, r2))
  {
    SameSpineAt(op, s, t, r1);
    SameSpineAt(op, s, t, r2);
    SameSpineNodes(op, At(s, r2), At(t, r2));
    ShrunkAt(s, t, r1);
  }

  // ---------------------------------------------------------------------
  // The same for expr_eliminate_dups2

  /** No operand below r1 is contradicted by another node of the chain at or below r2. */
  ghost predicate Uncontradicted(op: Junction, s: Expr, r1: Path, r2: Path) {
    forall a: Path, b: Path {:trigger Operand(op, s, a), Spine(op, s, b)} ::
      Operand(op, s, a) && Spine(op, s, b) && r1 <= a && r2 <= b && a != b ==>
        !Contradicts(op, At(s, a), At(s, b))
  }

  /** No operand of the chain e, nor of any chain nested in it, is contradicted by its chain. */
  ghost predicate Consistent(e: Expr)
    decreases e.Size(), 1
  {
    e.Junct? ==> Uncontradicted(e.op, e, [], []) && ConsistentOperands(e.op, e)
  }

  ghost predicate ConsistentOperands(op: Junction, e: Expr)
    decreases e.Size(), if e.IsJunct(op) then 0 else 2
  {
    if e.IsJunct(op) then ConsistentOperands(op, e.left) && ConsistentOperands(op, e.right) else Consistent(e)
  }

  ghost predicate ConsistentBelow(op: Junction, s: Expr, r1: Path, r2: Path) {
    forall a: Path :: Operand(op, s, a) && r1 <= a && a != r2 ==> Consistent(At(s, a))
  }

  /** Effect of expr_eliminate_dups2 on the chain s: a value may change, but only where it was m. */
  ghost predicate CutPass(op: Junction, s: Expr, t: Expr, r1: Path, r2: Path, changed: bool) {
    && SameSpine(op, s, t)
    && SameUnlessMod(s, t)
    && (Transformed(s) ==> Transformed(t))
    && Shrunk(s, t, r1)
    && (changed ==> HasYnOperand(t))
    && (!changed ==> t == s && Uncontradicted(op, s, r1, r2) && ConsistentBelow(op, s, r1, r2))
  }

  lemma CutPassSplitFirst(op: Junction, s: Expr, t: Expr, u: Expr, r1: Path, r2: Path, c1: bool, c2: bool)
    requires Spine(op, s, r1) && At(s, r1).IsJunct(op)
    requires CutPass(op, s, t, r1 + [L], r2, c1) && CutPass(op, t, u, r1 + [R], r2, c2)
    ensures CutPass(op, s, u, r1, r2, c1 || c2)
  {
    SameSpineTrans(op, s, t, u);
    ShrunkPrefix(s, t, r1, L);
    ShrunkPrefix(t, u, r1, R);
    ShrunkTrans(s, t, u, r1);
    if !c1 && !c2 {
      forall a: Path | Operand(op, s, a) && r1 <= a ensures r1 + [L] <= a || r1 + [R] <= a {
        OperandBelow(op, s, r1, a);
      }
    }
  }

  lemma {:induction false} SpineBelow(op: Junction, s: Expr, r: Path, b: Path)
    requires Spine(op, s, r) && Spine(op, s, b) && r <= b
    ensures b == r || r + [L] <= b || r + [R] <= b
    ensures !At(s, r).IsJunct(op) ==> b == r
  {
    if r == [] {
      if b != [] {
        assert b == [b[0]] + b[1..];
      }
    } else {
      assert b == [b[0]] + b[1..] && r == [r[0]] + r[1..];
      SpineBelow(op, Child(s, r[0]), r[1..], b[1..]);
    }
  }

  /** The two halves below the second slot, then the slot itself. */
  lemma CutPassSplitSecond(op: Junction, s: Expr, t: Expr, u: Expr, v: Expr, r1: Path, r2: Path,
                           c1: bool, c2: bool, c3: bool)
    requires Operand(op, s, r1) && Spine(op, s, r2) && At(s, r2).IsJunct(op)
    requires CutPass(op, s, t, r1, r2 + [L], c1) && CutPass(op, t, u, r1, r2 + [R], c2)
    requires OnePair(op, u, v, r1, r2, c3)
    ensures CutPass(op, s, v, r1, r2, c1 || c2 || c3)
  {
    SameSpineTrans(op, s, t, u);
    SameSpineTrans(op, s, u, v);
    ShrunkTrans(s, t, u, r1);
    ShrunkTrans(s, u, v, r1);
    if !c1 && !c2 && !c3 {
      forall a: Path | Operand(op, s, a) && r1 <= a ensures a == r1 { OperandBelow(op, s, r1, a); }
      forall b: Path | Spine(op, s, b) && r2 <= b ensures b == r2 || r2 + [L] <= b || r2 + [R] <= b {
        SpineBelow(op, s, r2, b);
      }
    }
  }

  /** Effect of testing the operand at a against the chain node at b. */
  ghost predicate OnePair(op: Junction, s: Expr, t: Expr, a: Path, b: Path, changed: bool) {
    && SameSpine(op, s, t)
    && SameUnlessMod(s, t)
    && (Transformed(s) ==> Transformed(t))
    && Shrunk(s, t, a)
    && (changed ==> HasYnOperand(t))
    && (!changed ==> t == s && Operand(op, s, a) && Spine(op, s, b) && !Contradicts(op, At(s, a), At(s, b))
                     && Consistent(At(s, a)))
  }

  lemma OnePairIsPass(op: Junction, s: Expr, t: Expr, a: Path, b: Path, changed: bool)
    requires Operand(op, s, a) && Operand(op, s, b) && OnePair(op, s, t, a, b, changed)
    ensures CutPass(op, s, t, a, b, changed)
  {
    if !changed {
      forall a': Path | Operand(op, s, a') && a <= a' ensures a' == a { OperandBelow(op, s, a, a'); }
      forall b': Path | Spine(op, s, b') && b <= b' ensures b' == b { SpineBelow(op, s, b, b'); }
    }
  }

  lemma CutPassSameOperand(op: Junction, s: Expr, r: Path)
    requires Operand(op, s, r)
    ensures CutPass(op, s, s, r, r, false)
  {
    SameSpineRefl(op, s);
    ShrunkRefl(s, r);
    forall a: Path | Operand(op, s, a) && r <= a ensures a == r { OperandBelow(op, s, r, a); }
    forall b: Path | Spine(op, s, b) && r <= b ensures b == r { SpineBelow(op, s, r, b); }
  }

  /** The operand at a has become x; then it is cut if the chain node at b contradicts it. */
  lemma OnePairKept(op: Junction, s: Expr, x: Expr, a: Path, b: Path, c1: bool)
    requires Operand(op, s, a) && Spine(op, s, b) && a != b && !x.IsJunct(op)
    requires SameUnlessMod(At(s, a), x) && x.Leaves() <= At(s, a).Leaves()
    requires Transformed(At(s, a)) ==> Transformed(x)
    requires c1 ==> HasYnOperand(x)
    requires !c1 ==> x == At(s, a) && Consistent(x)
    ensures var s' := Put(s, a, x);
      && Operand(op, s', a) && Spine(op, s', b)
      && (!Contradicts(op, At(s', a), At(s', b)) ==> OnePair(op, s, s', a, b, c1))
      && SameSpine(op, s, s') && SameUnlessMod(s, s') && Shrunk(s, s', a) && (Transformed(s) ==> Transformed(s'))
  {
    var s' := Put(s, a, x);
    if Transformed(s) {
      AtTransformed(s, a);
      PutTransformed(s, a, x);
    }
    PutPut(s, a, x, x);
    PutOperandSpine(op, s, a, x);
    PutSameUnlessMod(s, a, x);
    PutShrinks(s, a, x);
    PutYn(s, a, x);
    SameSpineAt(op, s, s', a);
    SameSpineAt(op, s, s', b);
  }

  lemma CutIsSameUnlessMod(op: Junction, s: Expr, a: Path, b: Path)
    requires Operand(op, s, a) && Spine(op, s, b) && Contradicts(op, At(s, a), At(s, b))
    ensures SameUnlessMod(s, Put(s, a, Symb(op.Dual().Unit())))
  {
    var t := Put(s, a, Symb(op.Dual().Unit()));
    forall env: Env ensures Val(s, env) != 1 ==> Val(t, env) == Val(s, env) {
      ContradictionExact(op, s, a, b, env);
    }
  }

  lemma OnePairCut(op: Junction, s: Expr, s': Expr, a: Path, b: Path)
    requires Operand(op, s', a) && Spine(op, s', b) && a != b && Contradicts(op, At(s', a), At(s', b))
    requires SameSpine(op, s, s') && SameUnlessMod(s, s') && Shrunk(s, s', a)
    requires Transformed(s) ==> Transformed(s')
    ensures OnePair(op, s, Put(s', a, Symb(op.Dual().Unit())), a, b, true)
  {
    var z := Symb(op.Dual().Unit());
    CutIsSameUnlessMod(op, s', a, b);
    if Transformed(s') {
      PutTransformed(s', a, z);
    }
    PutOperandSpine(op, s', a, z);
    SameSpineTrans(op, s, s', Put(s', a, z));
    PutShrinks(s', a, z);
    ShrunkTrans(s, s', Put(s', a, z), a);
    if a == [] {
      SpineBelow(op, s', [], b);
    }
    PutYn(s', a, z);
  }

  lemma {:induction false} AllConsistent(op: Junction, s: Expr)
    requires forall a: Path :: Operand(op, s, a) ==> Consistent(At(s, a))
    ensures ConsistentOperands(op, s)
  {
    if s.IsJunct(op) {
      forall a: Path | Operand(op, s.left, a) ensures Consistent(At(s.left, a)) {
        assert ([L] + a)[1..] == a;
        assert Operand(op, s, [L] + a);
      }
      forall a: Path | Operand(op, s.right, a) ensures Consistent(At(s.right, a)) {
        assert ([R] + a)[1..] == a;
        assert Operand(op, s, [R] + a);
      }
      AllConsistent(op, s.left);
      AllConsistent(op, s.right);
    } else {
      assert Operand(op, s, []);
    }
  }

  lemma UnchangedIsConsistent(op: Junction, s: Expr)
    requires s.IsJunct(op) && CutPass(op, s, s, [], [], false)
    ensures Consistent(s)
  {
    forall a: Path | Operand(op, s, a) ensures Consistent(At(s, a)) {
      assert [] <= a && a != [];
    }
    AllConsistent(op, s);
  }

  lemma AfterBothHalves(op: Junction, s: Expr, t: Expr, u: Expr, r1: Path, r2: Path)
    requires Operand(op, s, r1) && Spine(op, s, r2)
    requires SameSpine(op, s, t) && SameSpine(op, t, u) && Shrunk(s, t, r1) && Shrunk(t, u, r1)
    ensures Operand(op, u, r1) && Spine(op, u, r2)
    ensures At(u, r1).Leaves() <= At(s, r1).Leaves()
  {
    SameSpineTrans(op, s, t, u);
    ShrunkTrans(s, t, u, r1);
    SameSpineAt(op, s, u, r1);
    SameSpineAt(op, s, u, r2);
    ShrunkAt(s, u, r1);
  }

  lemma {:induction false} EliminateYnTransformed(e: Expr)
    ensures Transformed(e) ==> Transformed(EliminateYn(e))
  {
    if e.Junct? {
      EliminateYnTransformed(e.left);
      EliminateYnTransformed(e.right);
    }
  }

  // ---------------------------------------------------------------------
  // The rewriter

  /** The tree under rewriting and the global transformation counter. */
  class ExprTree {
    var root: Expr
    var transCount: nat

    constructor (e: Expr)
      ensures root == e && transCount == 0
    {
      root, transCount := e, 0;
    }

    /**
      expr_eliminate_dups1 on the slots p1 and p2, both reached through op nodes
      from the node at q.  Only the subtree at q changes.
     */
    method EliminateDups1(op: Junction, p1: Path, p2: Path, ghost q: Path, ghost r1: Path, ghost r2: Path)
      requires Has(root, q) && Has(root, p1) && Has(root, p2)
      requires p1 == q + r1 && p2 == q + r2
      requires Spine(op, At(root, q), r1) && Spine(op, At(root, q), r2)
      modifies this
      ensures Has(root, q) && root == Put(old(root), q, At(root, q))
      ensures old(transCount) <= transCount
      ensures JoinPass(op, old(At(root, q)), At(root, q), r1, r2, old(transCount) < transCount)
      decreases At(root, p1).Leaves(), if At(root, p1).IsJunct(op) then 0 else 2, SpineNodes(op, At(root, p2)), 1
    {
      ghost var s, n := At(root, q), transCount;
      AtConcat(root, q, r1);
      AtConcat(root, q, r2);
      if At(root, p1).IsJunct(op) {
        SlotStep(op, root, q, r1, L);
        EliminateDups1(op, p1 + [L], p2, q, r1 + [L], r2);
        ghost var t, m := At(root, q), transCount;
        AfterFirstHalf(op, s, t, r1, r2);
        SlotStep(op, root, q, r1, R);
        AtConcat(root, q, r2);
        EliminateDups1(op, p1 + [R], p2, q, r1 + [R], r2);
        PutPut(old(root), q, t, At(root, q));
        JoinPassSplitFirst(op, s, t, At(root, q), r1, r2, n < m, m < transCount);
      } else if At(root, p2).IsJunct(op) {
        JoinHalves(op, p1, p2, q, r1, r2);
      } else if p1 != p2 {
        JoinOperands(op, p1, p2, q, r1, r2);
      } else {
        assert r1 == p1[|q|..] == r2;
        PutPut(root, q, s, s);
        JoinPassSameOperand(op, s, r1);
      }
    }

    /** The part of expr_eliminate_dups1 that goes down in the second slot. */
    method JoinHalves(op: Junction, p1: Path, p2: Path, ghost q: Path, ghost r1: Path, ghost r2: Path)
      requires Has(root, q) && Has(root, p1) && Has(root, p2)
      requires p1 == q + r1 && p2 == q + r2
      requires Spine(op, At(root, q), r1) && Spine(op, At(root, q), r2)
      requires !At(root, p1).IsJunct(op) && At(root, p2).IsJunct(op)
      modifies this
      ensures Has(root, q) && root == Put(old(root), q, At(root, q))
      ensures old(transCount) <= transCount
      ensures JoinPass(op, old(At(root, q)), At(root, q), r1, r2, old(transCount) < transCount)
      decreases At(root, p1).Leaves(), 2, SpineNodes(op, At(root, p2)), 0
    {
      ghost var s, n := At(root, q), transCount;
      AtConcat(root, q, r1);
      AtConcat(root, q, r2);
      SlotStep(op, root, q, r2, L);
      EliminateDups1(op, p1, p2 + [L], q, r1, r2 + [L]);
      ghost var t, m := At(root, q), transCount;
      AfterSecondHalf(op, s, t, r1, r2);
      SlotStep(op, root, q, r2, R);
      AtConcat(root, q, r1);
      EliminateDups1(op, p1, p2 + [R], q, r1, r2 + [R]);
      PutPut(old(root), q, t, At(root, q));
      JoinPassSplitSecond(op, s, t, At(root, q), r1, r2, n < m, m < transCount);
    }

    /** The part of expr_eliminate_dups1 for two different operands. */
    method JoinOperands(op: Junction, p1: Path, p2: Path, ghost q: Path, ghost r1: Path, ghost r2: Path)
      requires Has(root, q) && Has(root, p1) && Has(root, p2)
      requires p1 == q + r1 && p2 == q + r2 && r1 != r2
      requires Operand(op, At(root, q), r1) && Operand(op, At(root, q), r2)
      requires !At(root, p1).IsJunct(op)
      modifies this
      ensures Has(root, q) && root == Put(old(root), q, At(root, q))
      ensures old(transCount) <= transCount
      ensures JoinPass(op, old(At(root, q)), At(root, q), r1, r2, old(transCount) < transCount)
      decreases At(root, p1).Leaves(), 1, 0
    {
      ghost var s := At(root, q);
      AtConcat(root, q, r1);
      AtConcat(root, q, r2);
      ghost var was := At(root, p1);
      if At(root, p1).Junct? {
        EliminateDups1(At(root, p1).op, p1, p1, p1, [], []);
        if transCount == old(transCount) {
          UnchangedIsSettled(was.op, was);
        }
      } else {
        PutPut(root, p1, was, was);
      }
      ghost var x := At(root, p1);
      PutConcat(old(root), q, r1, x);
      JoinPassOperands(op, s, x, r1, r2, old(transCount) < transCount);
      ghost var s' := At(root, q);
      PutPut(old(root), q, s', s');
      AtConcat(root, q, r2);
      var joined := Join(op, At(root, p1), At(root, p2));
      if joined.Some? {
        NotPrefix(op, s', r1, r2);
        OperandsSeparate(op, s', r1, r2, Symb(op.Unit()));
        PutConcat(root, q, r1, Symb(op.Unit()));
        root := Put(root, p1, Symb(op.Unit()));
        AtConcat(root, q, r2);
        PutConcat(root, q, r2, joined.value);
        root := Put(root, p2, joined.value);
        transCount := transCount + 1;
        PutPut(old(root), q, s', Put(s', r1, Symb(op.Unit())));
        PutPut(old(root), q, Put(s', r1, Symb(op.Unit())), At(root, q));
      }
    }

    /** expr_eliminate_dups2 on the slots p1 and p2, with q as for EliminateDups1. */
    method EliminateDups2(op: Junction, p1: Path, p2: Path, ghost q: Path, ghost r1: Path, ghost r2: Path)
      requires Has(root, q) && Has(root, p1) && Has(root, p2)
      requires p1 == q + r1 && p2 == q + r2
      requires Spine(op, At(root, q), r1) && Spine(op, At(root, q), r2)
      modifies this
      ensures Has(root, q) && root == Put(old(root), q, At(root, q))
      ensures old(transCount) <= transCount
      ensures CutPass(op, old(At(root, q)), At(root, q), r1, r2, old(transCount) < transCount)
      decreases At(root, p1).Leaves(), if At(root, p1).IsJunct(op) then 0 else 2, SpineNodes(op, At(root, p2)), 1
    {
      ghost var s, n := At(root, q), transCount;
      AtConcat(root, q, r1);
      AtConcat(root, q, r2);
      if At(root, p1).IsJunct(op) {
        SlotStep(op, root, q, r1, L);
        EliminateDups2(op, p1 + [L], p2, q, r1 + [L], r2);
        ghost var t, m := At(root, q), transCount;
        AfterFirstHalf(op, s, t, r1, r2);
        SlotStep(op, root, q, r1, R);
        AtConcat(root, q, r2);
        EliminateDups2(op, p1 + [R], p2, q, r1 + [R], r2);
        PutPut(old(root), q, t, At(root, q));
        CutPassSplitFirst(op, s, t, At(root, q), r1, r2, n < m, m < transCount);
      } else if At(root, p2).IsJunct(op) {
        CutHalves(op, p1, p2, q, r1, r2);
      } else if p1 != p2 {
        CutOperand(op, p1, p2, q, r1, r2);
        OnePairIsPass(op, s, At(root, q), r1, r2, n < transCount);
      } else {
        assert r1 == p1[|q|..] == r2;
        PutPut(root, q, s, s);
        CutPassSameOperand(op, s, r1);
      }
    }

    /** The part of expr_eliminate_dups2 that goes down in the second slot. */
    method CutHalves(op: Junction, p1: Path, p2: Path, ghost q: Path, ghost r1: Path, ghost r2: Path)
      requires Has(root, q) && Has(root, p1) && Has(root, p2)
      requires p1 == q + r1 && p2 == q + r2
      requires Spine(op, At(root, q), r1) && Spine(op, At(root, q), r2)
      requires !At(root, p1).IsJunct(op) && At(root, p2).IsJunct(op)
      modifies this
      ensures Has(root, q) && root == Put(old(root), q, At(root, q))
      ensures old(transCount) <= transCount
      ensures CutPass(op, old(At(root, q)), At(root, q), r1, r2, old(transCount) < transCount)
      decreases At(root, p1).Leaves(), 2, SpineNodes(op, At(root, p2)), 0
    {
      ghost var s, n := At(root, q), transCount;
      AtConcat(root, q, r1);
      AtConcat(root, q, r2);
      SlotStep(op, root, q, r2, L);
      EliminateDups2(op, p1, p2 + [L], q, r1, r2 + [L]);
      ghost var t, m := At(root, q), transCount;
      AfterSecondHalf(op, s, t, r1, r2);
      SlotStep(op, root, q, r2, R);
      AtConcat(root, q, r1);
      EliminateDups2(op, p1, p2 + [R], q, r1, r2 + [R]);
      ghost var u, k := At(root, q), transCount;
      PutPut(old(root), q, t, u);
      AfterBothHalves(op, s, t, u, r1, r2);
      AtConcat(root, q, r1);
      AtConcat(root, q, r2);
      CutOperand(op, p1, p2, q, r1, r2);
      PutPut(old(root), q, u, At(root, q));
      CutPassSplitSecond(op, s, t, u, At(root, q), r1, r2, n < m, m < k, k < transCount);
    }

    /** The part of expr_eliminate_dups2 that looks at one operand and one other node of its chain. */
    method CutOperand(op: Junction, p1: Path, p2: Path, ghost q: Path, ghost r1: Path, ghost r2: Path)
      requires Has(root, q) && Has(root, p1) && Has(root, p2)
      requires p1 == q + r1 && p2 == q + r2 && r1 != r2
      requires Operand(op, At(root, q), r1) && Spine(op, At(root, q), r2)
      requires !At(root, p1).IsJunct(op)
      modifies this
      ensures Has(root, q) && root == Put(old(root), q, At(root, q))
      ensures old(transCount) <= transCount
      ensures OnePair(op, old(At(root, q)), At(root, q), r1, r2, old(transCount) < transCount)
      decreases At(root, p1).Leaves(), 1, 0
    {
      ghost var s := At(root, q);
      AtConcat(root, q, r1);
      AtConcat(root, q, r2);
      ghost var was := At(root, p1);
      if At(root, p1).Junct? {
        EliminateDups2(At(root, p1).op, p1, p1, p1, [], []);
        if transCount == old(transCount) {
          UnchangedIsConsistent(was.op, was);
        }
      } else {
        PutPut(root, p1, was, was);
      }
      ghost var x := At(root, p1);
      PutConcat(old(root), q, r1, x);
      OnePairKept(op, s, x, r1, r2, old(transCount) < transCount);
      ghost var s' := At(root, q);
      PutPut(old(root), q, s', s');
      AtConcat(root, q, r1);
      AtConcat(root, q, r2);
      if Contradicts(op, At(root, p1), At(root, p2)) {
        PutConcat(root, q, r1, Symb(op.Dual().Unit()));
        PutPut(old(root), q, s', Put(s', r1, Symb(op.Dual().Unit())));
        OnePairCut(op, s, s', r1, r2);
        root := Put(root, p1, Symb(op.Dual().Unit()));
        transCount := transCount + 1;
      }
    }

    /** expr_eliminate_dups. */
    method EliminateDups()
      modifies this
      ensures transCount == old(transCount)
      ensures SameUnlessMod(old(root), root)
      ensures root.Leaves() <= old(root).Leaves()
      ensures Settled(root) && Consistent(root)
      ensures Transformed(old(root)) ==> Transformed(root)
    {
      var oldCount := transCount;
      while true
        invariant SameUnlessMod(old(root), root)
        invariant root.Leaves() <= old(root).Leaves()
        invariant Transformed(old(root)) ==> Transformed(root)
        decreases root.Leaves()
      {
        transCount := 0;
        ghost var before := root;
        if root.Junct? {
          EliminateDups1(root.op, [], [], [], [], []);
          ghost var middle := root;
          if transCount == 0 {
            UnchangedIsSettled(root.op, root);
          }
          EliminateDups2(root.op, [], [], [], [], []);
          if transCount == 0 {
            UnchangedIsConsistent(root.op, root);
          }
        }
        if transCount == 0 {
          break;
        }
        EliminateYnSame(root);
        EliminateYnFolds(root);
        EliminateYnTransformed(root);
        root := EliminateYn(root);
      }
      transCount := oldCount;
    }
  }

  // ---------------------------------------------------------------------
  // Dependencies of menu entries

  /** No expression stands for y. */
  function ValOpt(e: Option<Expr>, env: Env): Tri {
    if e.None? then 2 else Val(e.value, env)
  }

  predicate TransformedOpt(e: Option<Expr>) {
    e.Some? ==> Transformed(e.value)
  }

  /** expr_alloc_and. */
  function AllocAnd(a: Option<Expr>, b: Option<Expr>): (r: Option<Expr>)
    ensures forall env: Env :: ValOpt(r, env) == Conj.Apply(ValOpt(a, env), ValOpt(b, env))
    ensures TransformedOpt(r) <==> TransformedOpt(a) && TransformedOpt(b)
  {
    if a.None? then b else if b.None? then a else Some(Junct(Conj, a.value, b.value))
  }

  /** A dependency of its own is transformed, added to one that is inherited, and rid of duplicates. */
  method CombineDeps(inherited: Option<Expr>, own: Option<Expr>) returns (dep: Option<Expr>)
    ensures TransformedOpt(inherited) ==> TransformedOpt(dep)
    ensures dep.Some? ==> Settled(dep.value) && Consistent(dep.value)
    ensures forall env: Env :: var v := Conj.Apply(ValOpt(inherited, env), ValOpt(own, env));
      v != 1 ==> ValOpt(dep, env) == v
  {
    var transformed := if own.None? then None else Some(Transform(own.value));
    if own.Some? {
      TransformNormalises(own.value);
      forall env: Env ensures Val(Transform(own.value), env) == Val(own.value, env) {
        TransformValue(own.value, env);
      }
    }
    dep := AllocAnd(inherited, transformed);
    if dep.Some? {
      var tree := new ExprTree(dep.value);
      tree.EliminateDups();
      dep := Some(tree.root);
    }
  }

  /**
    The visibility of a property in menu_finalize: below the dependency of its
    entry, which is below that of the parent.  Unless the conjunction of all
    three is m, the visibility is that of the conjunction; for symbols that are
    not tristate it counts whether it is n, and no test against n is left.
   */
  method FinalizeVisible(parent: Option<Expr>, menuDep: Option<Expr>, visible: Option<Expr>, tristate: bool)
      returns (base: Option<Expr>, dep: Option<Expr>)
    ensures TransformedOpt(parent) ==> TransformedOpt(base) && TransformedOpt(dep)
    ensures forall env: Env :: var v := Conj.Apply(ValOpt(parent, env), ValOpt(menuDep, env));
      v != 1 ==> ValOpt(base, env) == v
    ensures TransformedOpt(parent) || tristate ==> forall env: Env ::
      var v := Conj.Apply(Conj.Apply(ValOpt(parent, env), ValOpt(menuDep, env)), ValOpt(visible, env));
      v != 1 ==> if tristate then ValOpt(dep, env) == v else Promoted(ValOpt(dep, env)) == v
    ensures TransformedOpt(parent) && !tristate && dep.Some? ==> TestsDirectly(dep.value)
  {
    base := CombineDeps(parent, menuDep);
    dep := CombineDeps(base, visible);
    if !tristate && dep.Some? {
      ghost var before := dep.value;
      dep := Some(TransBool(dep.value));
      if Transformed(before) {
        TransBoolTransformed(before);
        TransBoolRemovesTests(before);
        forall env: Env ensures Promoted(Val(dep.value, env)) == Promoted(Val(before, env)) {
          TransBoolKeepsVisibility(before, env);
        }
      }
    }
  }
}
