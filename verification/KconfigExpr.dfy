/**
  Kconfig expressions and their three-valued meaning.

  A tristate value is 0 (n), 1 (m) or 2 (y).  Conjunction is the minimum,
  disjunction the maximum and negation 2 - x.  AND and OR nodes share one
  constructor, because every rewriter treats the two as duals.
 */
module KconfigExpr {

  type Tri = t: int | 0 <= t <= 2 witness 0

  datatype SymType = Unknown | Boolean | Tristate | Integer | Hex | Text | Other

  /** Names a quoted constant can have: y, m and n are looked up as the three built-in symbols. */
  type ConstName = s: string | s != "y" && s != "m" && s != "n" witness ""

  /** Pointer equality of C symbols is equality of these values. */
  datatype Symbol =
    | YesSym
    | ModSym
    | NoSym
    | Quoted(text: ConstName)
    | Config(id: nat, typ: SymType)
  {
    /** The SYMBOL_CONST flag. */
    predicate IsConst() {
      !Config?
    }

    predicate HasType(t: SymType) {
      Config? && typ == t
    }

    /** One of the two constants that constant folding looks for. */
    predicate IsYesOrNo() {
      YesSym? || NoSym?
    }

    predicate IsBuiltin() {
      YesSym? || ModSym? || NoSym?
    }
  }

  datatype Junction = Conj | Disj
  {
    function Dual(): Junction {
      if Conj? then Disj else Conj
    }

    /** Value of the junction. */
    function Apply(a: Tri, b: Tri): Tri {
      if Conj? then (if a < b then a else b) else (if a > b then a else b)
    }

    /** The symbol that is the neutral element of the junction. */
    function Unit(): Symbol {
      if Conj? then YesSym else NoSym
    }
  }

  datatype Expr =
    | Symb(sym: Symbol)
    | Not(arg: Expr)
    | Junct(op: Junction, left: Expr, right: Expr)
    | Equal(lhs: Symbol, rhs: Symbol)
    | Unequal(lhs: Symbol, rhs: Symbol)
  {
    predicate IsJunct(o: Junction) {
      Junct? && op == o
    }

    predicate IsCompare() {
      Equal? || Unequal?
    }

    /** Number of nodes. */
    function Size(): nat {
      match this
      case Not(e) => 1 + e.Size()
      case Junct(_, l, r) => 1 + l.Size() + r.Size()
      case _ => 1
    }

    /** Number of operands of the AND/OR structure. */
    function Leaves(): (n: nat)
      ensures n >= 1
    {
      match this
      case Junct(_, l, r) => l.Leaves() + r.Leaves()
      case _ => 1
    }
  }

  /** An assignment: a tristate value and a string value for every configuration symbol. */
  datatype Env = Env(tri: nat -> Tri, str: nat -> string)

  /** The tristate value of a symbol; a boolean symbol never is m, the others are n. */
  function TriOf(env: Env, s: Symbol): Tri {
    match s
    case YesSym => 2
    case ModSym => 1
    case NoSym => 0
    case Quoted(_) => 0
    case Config(id, Boolean) => if env.tri(id) == 0 then 0 else 2
    case Config(id, Tristate) => env.tri(id)
    case Config(_, _) => 0
  }

  function TriName(t: Tri): string {
    if t == 0 then "n" else if t == 1 then "m" else "y"
  }

  /** The string value of a symbol, as comparisons see it. */
  function StrOf(env: Env, s: Symbol): string {
    match s
    case YesSym => "y"
    case ModSym => "m"
    case NoSym => "n"
    case Quoted(t) => t
    case Config(id, t) => if t == Boolean || t == Tristate then TriName(TriOf(env, s)) else env.str(id)
  }

  function Truth(b: bool): Tri {
    if b then 2 else 0
  }

  /** expr_calc_value on a non-null expression. */
  function Val(e: Expr, env: Env): Tri {
    match e
    case Symb(s) => TriOf(env, s)
    case Not(a) => 2 - Val(a, env)
    case Junct(op, l, r) => op.Apply(Val(l, env), Val(r, env))
    case Equal(a, b) => Truth(StrOf(env, a) == StrOf(env, b))
    case Unequal(a, b) => Truth(StrOf(env, a) != StrOf(env, b))
  }

  /** Same value under every assignment. */
  ghost predicate Same(a: Expr, b: Expr) {
    forall env: Env :: Val(a, env) == Val(b, env)
  }

  /** b has the value of a wherever that value is y or n; where a is m, b may be anything. */
  ghost predicate SameUnlessMod(a: Expr, b: Expr) {
    forall env: Env :: Val(a, env) != 1 ==> Val(b, env) == Val(a, env)
  }

  /** Comparing a boolean or tristate symbol with a built-in constant compares tristate values. */
  lemma CompareIsTri(env: Env, s: Symbol, c: Symbol)
    requires s.HasType(Boolean) || s.HasType(Tristate) || s.IsBuiltin()
    requires c.IsBuiltin()
    ensures StrOf(env, s) == StrOf(env, c) <==> TriOf(env, s) == TriOf(env, c)
  {
    assert "y"[0] == 'y' && "m"[0] == 'm' && "n"[0] == 'n';
  }

  lemma QuotedDiffers(env: Env, a: Symbol, b: Symbol)
    requires a.IsConst() && b.IsConst() && a != b
    ensures StrOf(env, a) != StrOf(env, b)
  {
    assert "y"[0] == 'y' && "m"[0] == 'm' && "n"[0] == 'n';
  }
}
