/**
 * The constraint language the encoder emits, in place of z3 terms: width-tagged
 * bit-vector variables combined by the operators the encoder uses, and equality
 * constraints between two such expressions.
 *
 * The denotation reads every expression as an unsigned value over natural
 * numbers. For And, Or, Xor and Not this is the bitwise reading the netlist's
 * op labels intend; see the README for how this relates to the z3 calls.
 */
module Smt {
  import opened Bits

  datatype Expr =
    | Var(name: string, width: nat)
    | And(operands: seq<Expr>)
    | Or(operands: seq<Expr>)
    | Xor(operands: seq<Expr>)
    | Not(operand: Expr)
    | Concat(operands: seq<Expr>)
    | Extract(hi: nat, lo: nat, operand: Expr)
    | Const(value: int, width: nat)

  /** `lhs == rhs`. */
  datatype Constraint = Eq(lhs: Expr, rhs: Expr)

  /** The same equality with its sides swapped. */
  function Flip(c: Constraint): Constraint
  {
    Eq(c.rhs, c.lhs)
  }

  /** The bit-width of an expression. A bitwise operator is as wide as its widest operand. */
  function Width(e: Expr): nat
  {
    match e
    case Var(_, w) => w
    case And(es) => MaxWidth(es)
    case Or(es) => MaxWidth(es)
    case Xor(es) => MaxWidth(es)
    case Not(a) => Width(a)
    case Concat(es) => SumWidth(es)
    case Extract(hi, lo, _) => if lo <= hi then hi - lo + 1 else 0
    case Const(_, w) => w
  }

  function MaxWidth(es: seq<Expr>): nat
  {
    if es == [] then 0
    else
      var w, rest := Width(es[0]), MaxWidth(es[1..]);
      if w < rest then rest else w
  }

  function SumWidth(es: seq<Expr>): nat
  {
    if es == [] then 0 else Width(es[0]) + SumWidth(es[1..])
  }

  /** Values of named signals; a name without a value reads as 0. */
  type Assignment = map<string, nat>

  /** The unsigned value of an expression under an assignment. */
  function Eval(e: Expr, env: Assignment): nat
  {
    match e
    case Var(n, w) => (if n in env then env[n] else 0) % Pow2(w)
    case And(es) => AndAll(es, env)
    case Or(es) => OrAll(es, env)
    case Xor(es) => XorAll(es, env)
    case Not(a) => BitNot(Eval(a, env), Width(a))
    case Concat(es) => ConcatAll(es, env)
    case Extract(hi, lo, a) => if lo <= hi then Truncate(ShiftRight(Eval(a, env), lo), hi - lo + 1) else 0
    case Const(v, w) => v % Pow2(w)
  }

  function AndAll(es: seq<Expr>, env: Assignment): nat
  {
    if es == [] then 0
    else if |es| == 1 then Eval(es[0], env)
    else BitAnd(Eval(es[0], env), AndAll(es[1..], env))
  }

  function OrAll(es: seq<Expr>, env: Assignment): nat
  {
    if es == [] then 0 else BitOr(Eval(es[0], env), OrAll(es[1..], env))
  }

  function XorAll(es: seq<Expr>, env: Assignment): nat
  {
    if es == [] then 0 else BitXor(Eval(es[0], env), XorAll(es[1..], env))
  }

  /** The first operand takes the most-significant bits. */
  function ConcatAll(es: seq<Expr>, env: Assignment): nat
  {
    if es == [] then 0
    else Eval(es[0], env) * Pow2(SumWidth(es[1..])) + ConcatAll(es[1..], env)
  }

  /** Every variable of e is an entry of the table wm, with the table's width. */
  predicate VarsIn(e: Expr, wm: map<string, nat>)
  {
    match e
    case Var(n, w) => n in wm && wm[n] == w
    case And(es) => forall a :: a in es ==> VarsIn(a, wm)
    case Or(es) => forall a :: a in es ==> VarsIn(a, wm)
    case Xor(es) => forall a :: a in es ==> VarsIn(a, wm)
    case Not(a) => VarsIn(a, wm)
    case Concat(es) => forall a :: a in es ==> VarsIn(a, wm)
    case Extract(_, _, a) => VarsIn(a, wm)
    case Const(_, _) => true
  }

  /** An assignment satisfies a constraint when both sides have the same value. */
  predicate Holds(c: Constraint, env: Assignment)
  {
    Eval(c.lhs, env) == Eval(c.rhs, env)
  }

  predicate HoldsAll(cs: seq<Constraint>, env: Assignment)
  {
    forall c :: c in cs ==> Holds(c, env)
  }

  /**
   * Python's `False` in a constraint list, which is what comparing a z3 term
   * with `None` yields: written as an equality between two different one-bit
   * constants, so no assignment satisfies it.
   */
  function FalseConstraint(): (c: Constraint)
    ensures forall env :: !Holds(c, env)
  {
    Eq(Const(0, 1), Const(1, 1))
  }

  /** Every expression's value fits in its width. */
  lemma {:induction false} EvalFits(e: Expr, env: Assignment)
    ensures Eval(e, env) < Pow2(Width(e))
    decreases e, 1
  {
    match e
    case Var(_, _) =>
    case And(es) => AndAllFits(es, env);
    case Or(es) => OrAllFits(es, env);
    case Xor(es) => XorAllFits(es, env);
    case Not(a) => BitNotBound(Eval(a, env), Width(a));
    case Concat(es) => ConcatAllFits(es, env);
    case Extract(hi, lo, a) =>
      if lo <= hi {
        TruncateBound(ShiftRight(Eval(a, env), lo), hi - lo + 1);
      }
    case Const(_, _) =>
  }

  /** Every operand fits in the width of the widest. */
  lemma {:induction false} OperandsFit(es: seq<Expr>, env: Assignment, i: nat)
    requires i < |es|
    ensures Eval(es[i], env) < Pow2(MaxWidth(es))
    decreases es, 0
  {
    if i == 0 {
      EvalFits(es[0], env);
      Pow2Monotone(Width(es[0]), MaxWidth(es));
    } else {
      OperandsFit(es[1..], env, i - 1);
      Pow2Monotone(MaxWidth(es[1..]), MaxWidth(es));
    }
  }

  lemma {:induction false} AndAllFits(es: seq<Expr>, env: Assignment)
    ensures AndAll(es, env) < Pow2(MaxWidth(es))
    decreases es, 1
  {
    if |es| == 1 {
      OperandsFit(es, env, 0);
    } else if |es| > 1 {
      OperandsFit(es, env, 0);
      AndAllFits(es[1..], env);
      Pow2Monotone(MaxWidth(es[1..]), MaxWidth(es));
      BitAndBound(Eval(es[0], env), AndAll(es[1..], env), MaxWidth(es));
    }
  }

  lemma {:induction false} OrAllFits(es: seq<Expr>, env: Assignment)
    ensures OrAll(es, env) < Pow2(MaxWidth(es))
    decreases es, 1
  {
    if es != [] {
      OperandsFit(es, env, 0);
      OrAllFits(es[1..], env);
      Pow2Monotone(MaxWidth(es[1..]), MaxWidth(es));
      BitOrBound(Eval(es[0], env), OrAll(es[1..], env), MaxWidth(es));
    }
  }

  lemma {:induction false} XorAllFits(es: seq<Expr>, env: Assignment)
    ensures XorAll(es, env) < Pow2(MaxWidth(es))
    decreases es, 1
  {
    if es != [] {
      OperandsFit(es, env, 0);
      XorAllFits(es[1..], env);
      Pow2Monotone(MaxWidth(es[1..]), MaxWidth(es));
      BitXorBound(Eval(es[0], env), XorAll(es[1..], env), MaxWidth(es));
    }
  }

  lemma {:induction false} ConcatAllFits(es: seq<Expr>, env: Assignment)
    ensures ConcatAll(es, env) < Pow2(SumWidth(es))
    decreases es, 1
  {
    if es != [] {
      var hi, lo := Eval(es[0], env), ConcatAll(es[1..], env);
      var wHi, wLo := Width(es[0]), SumWidth(es[1..]);
      EvalFits(es[0], env);
      ConcatAllFits(es[1..], env);
      Pow2Add(wHi, wLo);
      PlaceBelow(hi, lo, Pow2(wHi), Pow2(wLo));
    }
  }

  /**
   * A concatenation splits back into its parts: its top bits are the first
   * operand and its low bits the concatenation of the rest.
   */
  lemma {:induction false} ConcatSplits(es: seq<Expr>, env: Assignment)
    requires es != []
    ensures ConcatAll(es, env) / Pow2(SumWidth(es[1..])) == Eval(es[0], env)
    ensures ConcatAll(es, env) % Pow2(SumWidth(es[1..])) == ConcatAll(es[1..], env)
    ensures SumWidth(es) == Width(es[0]) + SumWidth(es[1..])
  {
    var p := Pow2(SumWidth(es[1..]));
    ConcatAllFits(es[1..], env);
    DivModUnique(ConcatAll(es, env), p, Eval(es[0], env), ConcatAll(es[1..], env));
  }

  /** An extract is the operand divided by 2^lo and reduced modulo 2^(hi - lo + 1). */
  lemma ExtractValue(hi: nat, lo: nat, a: Expr, env: Assignment)
    requires lo <= hi
    ensures Eval(Extract(hi, lo, a), env) == (Eval(a, env) / Pow2(lo)) % Pow2(hi - lo + 1)
  {
    ShiftIsDivision(Eval(a, env), lo);
    TruncateIsModulo(ShiftRight(Eval(a, env), lo), hi - lo + 1);
  }

  /** A digit below q shifted past a p-sized slot, plus a value below p, stays below q * p. */
  lemma PlaceBelow(hi: nat, lo: nat, q: nat, p: nat)
    requires hi < q && lo < p
    ensures hi * p + lo < q * p
  {
    MulMonotone(hi + 1, q, p);
  }

  /** Swapping the sides of an equality keeps the same satisfying assignments. */
  lemma FlipHolds(c: Constraint, env: Assignment)
    ensures Holds(Flip(c), env) <==> Holds(c, env)
  {
  }
}
