/**
  expr_transform, expr_trans_compare and expr_trans_bool: rewriting an
  expression into a normal form, into the truth of a comparison, and into a
  form for non-tristate symbols.
 */
module KconfigTransform {
  import opened Options
  import opened KconfigExpr

  // ---------------------------------------------------------------------
  // expr_transform

  /** expr_transform re-transforms its own output; this weight drops at every such call. */
  function Weight(e: Expr): (w: nat)
    ensures w >= 1
  {
    match e
    case Symb(_) => 1
    case Equal(_, _) => 2
    case Unequal(_, _) => 2
    case Not(a) => 2 * Weight(a)
    case Junct(_, l, r) => 1 + Weight(l) + Weight(r)
  }

  function Transform(e: Expr): (r: Expr)
    ensures Weight(r) <= Weight(e)
    decreases Weight(e)
  {
    match e
    case Symb(_) => e
    case Equal(a, b) =>
      if !a.HasType(Boolean) then e
      else if b == NoSym then Not(Symb(a))
      else if b == ModSym then Symb(NoSym)
      else if b == YesSym then Symb(a)
      else e
    case Unequal(a, b) =>
      if !a.HasType(Boolean) then e
      else if b == NoSym then Symb(a)
      else if b == ModSym then Symb(YesSym)
      else if b == YesSym then Not(Symb(a))
      else e
    case Junct(op, l, r) => Junct(op, Transform(l), Transform(r))
    case Not(a) =>
      match Transform(a)
      case Not(b) => Transform(b)
      case Equal(x, y) => Unequal(x, y)
      case Unequal(x, y) => Equal(x, y)
      case Junct(op, l, r) =>
        assert Weight(Not(l)) == 2 * Weight(l) && Weight(Not(r)) == 2 * Weight(r);
        Transform(Junct(op.Dual(), Not(l), Not(r)))
      case Symb(YesSym) => Symb(NoSym)
      case Symb(ModSym) => Symb(ModSym)
      case Symb(NoSym) => Symb(YesSym)
      case Symb(s) => Not(Symb(s))
  }

  lemma DeMorgan(op: Junction, a: Tri, b: Tri)
    ensures op.Dual().Apply(2 - a, 2 - b) == 2 - op.Apply(a, b)
  {
  }

  /** expr_transform keeps the value under every assignment. */
  lemma {:induction false} TransformValue(e: Expr, env: Env)
    ensures Val(Transform(e), env) == Val(e, env)
    decreases Weight(e)
  {
    match e
    case Symb(_) =>
    case Equal(a, b) => TransformCompareValue(e, env);
    case Unequal(a, b) => TransformCompareValue(e, env);
    case Junct(op, l, r) =>
      TransformValue(l, env);
      TransformValue(r, env);
    case Not(a) =>
      TransformValue(a, env);
      match Transform(a)
      case Not(b) => TransformValue(b, env);
      case Junct(op, l, r) =>
        assert Weight(Not(l)) == 2 * Weight(l) && Weight(Not(r)) == 2 * Weight(r);
        TransformValue(Junct(op.Dual(), Not(l), Not(r)), env);
        DeMorgan(op, Val(l, env), Val(r, env));
      case _ =>
  }

  lemma TransformCompareValue(e: Expr, env: Env)
    requires e.IsCompare()
    ensures Val(Transform(e), env) == Val(e, env)
  {
    if e.lhs.HasType(Boolean) && e.rhs.IsBuiltin() {
      CompareIsTri(env, e.lhs, e.rhs);
    }
  }

  /** Negation only on symbols other than y, m and n, and no boolean symbol compared with one of them on its right. */
  predicate Transformed(e: Expr) {
    match e
    case Symb(_) => true
    case Equal(a, b) => !(a.HasType(Boolean) && b.IsBuiltin())
    case Unequal(a, b) => !(a.HasType(Boolean) && b.IsBuiltin())
    case Junct(_, l, r) => Transformed(l) && Transformed(r)
    case Not(a) => a.Symb? && !a.sym.IsBuiltin()
  }

  lemma {:induction false} TransformNormalises(e: Expr)
    ensures Transformed(Transform(e))
    decreases Weight(e)
  {
    match e
    case Junct(op, l, r) =>
      TransformNormalises(l);
      TransformNormalises(r);
    case Not(a) =>
      TransformNormalises(a);
      match Transform(a) {
        case Not(b) => TransformNormalises(b);
        case Junct(op, l, r) =>
          assert Weight(Not(l)) == 2 * Weight(l) && Weight(Not(r)) == 2 * Weight(r);
          TransformNormalises(Junct(op.Dual(), Not(l), Not(r)));
        case _ =>
      }
    case _ =>
  }

  /** The transformed expressions are exactly the ones expr_transform leaves alone. */
  lemma {:induction false} TransformFixpoint(e: Expr)
    ensures Transformed(e) <==> Transform(e) == e
  {
    TransformNormalises(e);
    if Transformed(e) {
      match e
      case Junct(_, l, r) =>
        TransformFixpoint(l);
        TransformFixpoint(r);
      case _ =>
    }
  }

  /** Negation only on symbols that are not constant, and no boolean symbol compared with y, m or n on either side. */
  predicate FullyNormal(e: Expr) {
    match e
    case Symb(_) => true
    case Equal(a, b) => !(a.HasType(Boolean) && b.IsBuiltin()) && !(b.HasType(Boolean) && a.IsBuiltin())
    case Unequal(a, b) => !(a.HasType(Boolean) && b.IsBuiltin()) && !(b.HasType(Boolean) && a.IsBuiltin())
    case Junct(_, l, r) => FullyNormal(l) && FullyNormal(r)
    case Not(a) => a.Symb? && !a.sym.IsConst()
  }

  /** No quoted constant below an odd number of negations, and no y, m or n on the left of a boolean symbol. */
  predicate Plain(e: Expr, negated: bool) {
    match e
    case Symb(s) => !(negated && s.Quoted?)
    case Not(a) => Plain(a, !negated)
    case Junct(_, l, r) => Plain(l, negated) && Plain(r, negated)
    case Equal(a, b) => !(b.HasType(Boolean) && a.IsBuiltin())
    case Unequal(a, b) => !(b.HasType(Boolean) && a.IsBuiltin())
  }

  lemma {:induction false} TransformKeepsPlain(e: Expr, negated: bool)
    ensures Plain(Transform(e), negated) == Plain(e, negated)
    decreases Weight(e)
  {
    match e
    case Junct(op, l, r) =>
      TransformKeepsPlain(l, negated);
      TransformKeepsPlain(r, negated);
    case Not(a) =>
      TransformKeepsPlain(a, !negated);
      match Transform(a) {
        case Not(b) => TransformKeepsPlain(b, negated);
        case Junct(op, l, r) =>
          assert Weight(Not(l)) == 2 * Weight(l) && Weight(Not(r)) == 2 * Weight(r);
          TransformKeepsPlain(Junct(op.Dual(), Not(l), Not(r)), negated);
        case _ =>
      }
    case _ =>
  }

  lemma {:induction false} PlainIsFullyNormal(e: Expr)
    requires Transformed(e)
    ensures FullyNormal(e) <==> Plain(e, false)
  {
    match e
    case Junct(_, l, r) =>
      PlainIsFullyNormal(l);
      PlainIsFullyNormal(r);
    case _ =>
  }

  /** Exactly when the result is free of negated constants and of boolean symbols compared with y, m or n. */
  lemma TransformFullyNormalIff(e: Expr)
    ensures FullyNormal(Transform(e)) <==> Plain(e, false)
  {
    TransformNormalises(e);
    TransformKeepsPlain(e, false);
    PlainIsFullyNormal(Transform(e));
  }

  /** A negated quoted constant, and y on the left of a boolean symbol, stay as they are. */
  lemma TransformLeaves(q: ConstName)
    ensures var e := Not(Symb(Quoted(q))); Transform(e) == e && !FullyNormal(e)
    ensures var e := Equal(YesSym, Config(0, Boolean)); Transform(e) == e && !FullyNormal(e)
  {
    assert Transform(Symb(Quoted(q))) == Symb(Quoted(q));
  }

  // ---------------------------------------------------------------------
  // expr_trans_compare

  datatype Cmp = Eq | Ne
  {
    function Flip(): Cmp {
      if Eq? then Ne else Eq
    }

    function Holds(same: bool): Tri {
      Truth(if Eq? then same else !same)
    }
  }

  function MakeCompare(c: Cmp, a: Symbol, b: Symbol): Expr {
    if c.Eq? then Equal(a, b) else Unequal(a, b)
  }

  function NegateIf(c: Cmp, e: Expr): Expr {
    if c.Ne? then Not(e) else e
  }

  /** expr_trans_compare(e, c, sym) for a non-null e. */
  function TransCompare(e: Expr, c: Cmp, sym: Symbol): Option<Expr> {
    match e
    case Symb(s) => Some(MakeCompare(c, s, sym))
    case Not(a) => TransCompare(a, c.Flip(), sym)
    case Junct(op, l, r) =>
      var e1, e2 := TransCompare(l, Eq, sym), TransCompare(r, Eq, sym);
      if !sym.IsYesOrNo() then Some(NegateIf(c, e))
      else if e1.None? || e2.None? then None
      else Some(NegateIf(c, Junct(if sym == YesSym then op else op.Dual(), e1.value, e2.value)))
    case _ =>
      if sym == YesSym then Some(NegateIf(c, e))
      else if sym == ModSym then Some(Symb(if c.Eq? then NoSym else YesSym))
      else if sym == NoSym then Some(NegateIf(c.Flip(), e))
      else None
  }

  /** expr_trans_compare of the null expression, which stands for y. */
  function TransCompareNull(c: Cmp, sym: Symbol): Expr {
    NegateIf(c, Symb(sym))
  }

  /** The value of e when every operand whose value is m is read as the value given instead. */
  function ValReading(e: Expr, env: Env, m: Tri): Tri {
    match e
    case Symb(s) => if TriOf(env, s) == 1 then m else TriOf(env, s)
    case Not(a) => 2 - ValReading(a, env, m)
    case Junct(op, l, r) => op.Apply(ValReading(l, env, m), ValReading(r, env, m))
    case _ => Val(e, env)
  }

  /** Every symbol operand is boolean, tristate or built in. */
  predicate Logical(e: Expr) {
    match e
    case Symb(s) => s.HasType(Boolean) || s.HasType(Tristate) || s.IsBuiltin()
    case Not(a) => Logical(a)
    case Junct(_, l, r) => Logical(l) && Logical(r)
    case _ => true
  }

  /**
    Exactly what expr_trans_compare computes against y or n: the comparison of
    the value e has when m operands are read as n (against y) or as y (against n).
   */
  lemma {:induction false} TransCompareExact(e: Expr, c: Cmp, sym: Symbol, env: Env)
    requires Logical(e) && sym.IsYesOrNo()
    ensures TransCompare(e, c, sym).Some?
    ensures Val(TransCompare(e, c, sym).value, env)
         == c.Holds(ValReading(e, env, 2 - TriOf(env, sym)) == TriOf(env, sym))
    ensures ValReading(e, env, 2 - TriOf(env, sym)) != 1
  {
    match e
    case Symb(s) => CompareIsTri(env, s, sym);
    case Not(a) => TransCompareExact(a, c.Flip(), sym, env);
    case Junct(op, l, r) =>
      TransCompareExact(l, Eq, sym, env);
      TransCompareExact(r, Eq, sym, env);
    case _ =>
  }

  predicate NotFree(e: Expr) {
    match e
    case Not(_) => false
    case Junct(_, l, r) => NotFree(l) && NotFree(r)
    case _ => true
  }

  /** No symbol operand of e has the value m. */
  predicate TwoValued(e: Expr, env: Env) {
    match e
    case Symb(s) => TriOf(env, s) != 1
    case Not(a) => TwoValued(a, env)
    case Junct(_, l, r) => TwoValued(l, env) && TwoValued(r, env)
    case _ => true
  }

  lemma {:induction false} TwoValuedReading(e: Expr, env: Env, m: Tri)
    requires TwoValued(e, env)
    ensures ValReading(e, env, m) == Val(e, env) != 1
  {
    match e
    case Not(a) => TwoValuedReading(a, env, m);
    case Junct(_, l, r) =>
      TwoValuedReading(l, env, m);
      TwoValuedReading(r, env, m);
    case _ =>
  }

  lemma {:induction false} NotFreeReading(e: Expr, env: Env)
    requires NotFree(e)
    ensures ValReading(e, env, 0) == 2 <==> Val(e, env) == 2
    ensures ValReading(e, env, 2) == 0 <==> Val(e, env) == 0
  {
    match e
    case Junct(_, l, r) =>
      NotFreeReading(l, env);
      NotFreeReading(r, env);
    case _ =>
  }

  /** e's comparison with y or n is translated faithfully at env. */
  predicate FaithfulAt(e: Expr, c: Cmp, sym: Symbol, env: Env)
    requires Logical(e) && sym.IsYesOrNo()
  {
    TransCompare(e, c, sym).Some? &&
    Val(TransCompare(e, c, sym).value, env) == c.Holds(Val(e, env) == TriOf(env, sym))
  }

  /** Reading m as something else matters only for expressions whose value is m. */
  lemma {:induction false} ReadingKeepsYesAndNo(e: Expr, env: Env, m: Tri)
    requires Val(e, env) != 1
    ensures ValReading(e, env, m) == Val(e, env)
  {
    match e
    case Not(a) => ReadingKeepsYesAndNo(a, env, m);
    case Junct(_, l, r) =>
      if Val(l, env) != 1 {
        ReadingKeepsYesAndNo(l, env, m);
      }
      if Val(r, env) != 1 {
        ReadingKeepsYesAndNo(r, env, m);
      }
    case _ =>
  }

  /** The translation is wrong exactly when the value is m and reads as the symbol compared with. */
  lemma TransCompareFaithfulIff(e: Expr, c: Cmp, sym: Symbol, env: Env)
    requires Logical(e) && sym.IsYesOrNo()
    ensures Val(e, env) != 1 ==> FaithfulAt(e, c, sym, env)
    ensures Val(e, env) == 1 ==>
      (FaithfulAt(e, c, sym, env) <==> ValReading(e, env, 2 - TriOf(env, sym)) != TriOf(env, sym))
    ensures NotFree(e) || TwoValued(e, env) ==> FaithfulAt(e, c, sym, env)
  {
    TransCompareExact(e, c, sym, env);
    if Val(e, env) != 1 {
      ReadingKeepsYesAndNo(e, env, 2 - TriOf(env, sym));
    }
    if NotFree(e) {
      NotFreeReading(e, env);
    }
    if TwoValued(e, env) {
      TwoValuedReading(e, env, 2 - TriOf(env, sym));
    }
  }

  /** For the null expression the comparison of y is right against y and n, and wrong against m. */
  lemma TransCompareNullIff(c: Cmp, sym: Symbol, env: Env)
    requires sym.IsBuiltin()
    ensures Val(TransCompareNull(c, sym), env) == c.Holds(TriOf(env, YesSym) == TriOf(env, sym)) <==> sym.IsYesOrNo()
  {
  }

  /** What stands below the outermost negations. */
  function Core(e: Expr): Expr {
    if e.Not? then Core(e.arg) else e
  }

  predicate OddNots(e: Expr) {
    e.Not? && !OddNots(e.arg)
  }

  /** What the comparison with m becomes. */
  lemma {:induction false} TransCompareMod(e: Expr, c: Cmp, env: Env)
    requires Logical(e)
    ensures TransCompare(e, c, ModSym).Some?
    ensures var core, d, v := Core(e), if OddNots(e) then c.Flip() else c, Val(TransCompare(e, c, ModSym).value, env);
      v == if core.Junct? then (if d.Eq? then Val(core, env) else 2 - Val(core, env)) else d.Holds(Val(core, env) == 1)
  {
    match e
    case Not(a) => TransCompareMod(a, c.Flip(), env);
    case Symb(s) => CompareIsTri(env, s, ModSym);
    case _ =>
  }

  lemma {:induction false} CoreValue(e: Expr, env: Env)
    ensures Val(e, env) == if OddNots(e) then 2 - Val(Core(e), env) else Val(Core(e), env)
  {
    if e.Not? {
      CoreValue(e.arg, env);
    }
  }

  /**
    Against m the comparison is right exactly for symbols and comparisons below
    an even number of negations, and for junctions, negated or not, that are n.
   */
  lemma TransCompareModIff(e: Expr, c: Cmp, env: Env)
    requires Logical(e)
    ensures TransCompare(e, c, ModSym).Some?
    ensures Val(TransCompare(e, c, ModSym).value, env) == c.Holds(Val(e, env) == 1) <==>
            if Core(e).Junct? then Val(e, env) == 0 else !OddNots(e)
  {
    TransCompareMod(e, c, env);
    CoreValue(e, env);
  }

  /** With a negated tristate symbol at m the translation is not faithful: !A is m, but "!A = n" reads as true. */
  lemma TransCompareModWitness()
    ensures var a := Config(0, Tristate);
      var env := Env(_ => 1, _ => "");
      && TransCompare(Not(Symb(a)), Ne, NoSym) == Some(Equal(a, NoSym))
      && Val(Not(Symb(a)), env) == 1
      && !FaithfulAt(Not(Symb(a)), Ne, NoSym, env)
  {
    var a := Config(0, Tristate);
    var env := Env(_ => 1, _ => "");
    CompareIsTri(env, a, NoSym);
  }

  // ---------------------------------------------------------------------
  // expr_trans_bool

  function TransBool(e: Expr): Expr {
    match e
    case Junct(op, l, r) => Junct(op, TransBool(l), TransBool(r))
    case Not(a) => Not(TransBool(a))
    case Unequal(a, b) => if a.HasType(Tristate) && b == NoSym then Symb(a) else e
    case _ => e
  }

  /** Visibility of a non-tristate symbol: m counts as y. */
  function Promoted(t: Tri): Tri {
    if t == 1 then 2 else t
  }

  /** On a transformed expression expr_trans_bool keeps "not n", hence the promoted visibility. */
  lemma {:induction false} TransBoolKeepsVisibility(e: Expr, env: Env)
    requires Transformed(e)
    ensures Promoted(Val(TransBool(e), env)) == Promoted(Val(e, env))
  {
    match e
    case Junct(_, l, r) =>
      TransBoolKeepsVisibility(l, env);
      TransBoolKeepsVisibility(r, env);
    case Unequal(a, b) =>
      if a.HasType(Tristate) && b == NoSym {
        CompareIsTri(env, a, b);
      }
    case _ =>
  }

  lemma {:induction false} TransBoolTransformed(e: Expr)
    requires Transformed(e)
    ensures Transformed(TransBool(e))
  {
    if e.Junct? {
      TransBoolTransformed(e.left);
      TransBoolTransformed(e.right);
    }
  }

  /** No comparison of a tristate symbol with n is left, so the result tests symbols directly. */
  predicate TestsDirectly(e: Expr) {
    match e
    case Junct(_, l, r) => TestsDirectly(l) && TestsDirectly(r)
    case Not(a) => TestsDirectly(a)
    case Unequal(a, b) => !(a.HasType(Tristate) && b == NoSym)
    case _ => true
  }

  lemma {:induction false} TransBoolRemovesTests(e: Expr)
    ensures TestsDirectly(TransBool(e))
    ensures TestsDirectly(e) <==> TransBool(e) == e
  {
    match e
    case Junct(_, l, r) =>
      TransBoolRemovesTests(l);
      TransBoolRemovesTests(r);
    case Not(a) => TransBoolRemovesTests(a);
    case _ =>
  }

  /** Without expr_transform first, the claim fails: under a negation the test may not be dropped. */
  lemma TransBoolNeedsTransform()
    ensures var e := Not(Unequal(Config(0, Tristate), NoSym));
      var env := Env(_ => 1, _ => "");
      !Transformed(e) && Promoted(Val(TransBool(e), env)) != Promoted(Val(e, env))
  {
    CompareIsTri(Env(_ => 1, _ => ""), Config(0, Tristate), NoSym);
  }
}
