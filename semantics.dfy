/**
 * What each emitted constraint says about the destination wire's value under
 * the model's denotation: one lemma per op family, stated on the values of
 * the net's wires.
 */
module Semantics {
  import opened Bits
  import opened Netlist
  import opened Smt
  import opened Generation

  /** The value of wire w under env, read at the width the table gives it. */
  function Signal(wm: map<string, nat>, env: Assignment, w: Wire): nat
    requires w.name in wm
  {
    Eval(Var(w.name, wm[w.name]), env)
  }

  /** The number of values in vals whose bit i is set. */
  function OnesAt(vals: seq<nat>, i: nat): nat
  {
    if vals == [] then 0 else Bit(vals[0], i) + OnesAt(vals[1..], i)
  }

  function EvalEach(es: seq<Expr>, env: Assignment): (vals: seq<nat>)
    ensures |vals| == |es|
    ensures forall k :: 0 <= k < |es| ==> vals[k] == Eval(es[k], env)
  {
    seq(|es|, k requires 0 <= k < |es| => Eval(es[k], env))
  }

  /** Bit i of an n-ary AND is set exactly when bit i of every operand is. */
  lemma {:induction false} AndAllAt(es: seq<Expr>, env: Assignment, i: nat)
    requires es != []
    ensures Bit(AndAll(es, env), i) == 1 <==> forall k :: 0 <= k < |es| ==> Bit(Eval(es[k], env), i) == 1
  {
    if |es| > 1 {
      AndAllAt(es[1..], env, i);
      BitAndAt(Eval(es[0], env), AndAll(es[1..], env), i);
      assert forall k :: 1 <= k < |es| ==> es[k] == es[1..][k - 1];
    }
  }

  /** Bit i of an n-ary OR is set exactly when bit i of some operand is. */
  lemma {:induction false} OrAllAt(es: seq<Expr>, env: Assignment, i: nat)
    ensures Bit(OrAll(es, env), i) == 1 <==> exists k :: 0 <= k < |es| && Bit(Eval(es[k], env), i) == 1
  {
    if es == [] {
      ZeroBits(i);
    } else {
      OrAllAt(es[1..], env, i);
      BitOrAt(Eval(es[0], env), OrAll(es[1..], env), i);
      assert forall k :: 1 <= k < |es| ==> es[k] == es[1..][k - 1];
      BitIsBinary(Eval(es[0], env), i);
      BitIsBinary(OrAll(es[1..], env), i);
    }
  }

  /** Bit i of an n-ary XOR is the parity of the operands whose bit i is set. */
  lemma {:induction false} XorAllAt(es: seq<Expr>, env: Assignment, i: nat)
    ensures Bit(XorAll(es, env), i) == OnesAt(EvalEach(es, env), i) % 2
  {
    if es == [] {
      ZeroBits(i);
    } else {
      var vals := EvalEach(es, env);
      var b, rest := Bit(Eval(es[0], env), i), OnesAt(EvalEach(es[1..], env), i);
      XorAllAt(es[1..], env, i);
      BitXorAt(Eval(es[0], env), XorAll(es[1..], env), i);
      assert vals[1..] == EvalEach(es[1..], env);
      assert OnesAt(vals, i) == b + rest;
      BitIsBinary(Eval(es[0], env), i);
      ParityStep(b, rest);
    }
  }

  lemma ParityStep(b: nat, n: nat)
    requires b == 0 || b == 1
    ensures (b + n) % 2 == if b != n % 2 then 1 else 0
  {
  }

  /** The operands of a multi-input net are its args' variables, in order. */
  lemma OperandsAreArgs(net: Net, wm: map<string, nat>)
    requires Variables(wm, net.args).Ok?
    ensures forall k :: 0 <= k < |net.args| ==> net.args[k].name in wm
    ensures |Variables(wm, net.args).value| == |net.args|
    ensures forall k :: 0 <= k < |net.args| ==>
      Variables(wm, net.args).value[k] == Var(net.args[k].name, wm[net.args[k].name])
  {
    VariablesNeedTable(wm, net.args);
    VariablesFound(wm, net.args);
  }

  /**
   * Wire-copy and register: an assignment satisfies the constraint exactly
   * when dest and arg0 carry the same value.
   */
  lemma CopyMeaning(net: Net, wm: map<string, nat>, env: Assignment)
    requires net.op == 'w' || net.op == 'r'
    requires NetConstraint(net, wm).Ok?
    ensures NetConstraint(net, wm).value.Some?
    ensures net.args != [] && net.dests != [] && net.args[0].name in wm && net.dests[0].name in wm
    ensures Holds(NetConstraint(net, wm).value.value, env) <==>
      Signal(wm, env, net.dests[0]) == Signal(wm, env, net.args[0])
  {
  }

  /**
   * AND: each bit of dest is set exactly when that bit of every arg is set
   * (the bitwise reading of the op).
   */
  lemma AndMeaning(net: Net, wm: map<string, nat>, env: Assignment, i: nat)
    requires net.op == '&' && net.args != []
    requires NetConstraint(net, wm).Ok?
    requires Holds(NetConstraint(net, wm).value.value, env)
    ensures net.dests != [] && net.dests[0].name in wm
    ensures forall k :: 0 <= k < |net.args| ==> net.args[k].name in wm
    ensures Bit(Signal(wm, env, net.dests[0]), i) == 1 <==>
      forall k :: 0 <= k < |net.args| ==> Bit(Signal(wm, env, net.args[k]), i) == 1
  {
    OperandsAreArgs(net, wm);
    AndAllAt(Variables(wm, net.args).value, env, i);
  }

  /** OR: each bit of dest is set exactly when that bit of some arg is set. */
  lemma OrMeaning(net: Net, wm: map<string, nat>, env: Assignment, i: nat)
    requires net.op == '|'
    requires NetConstraint(net, wm).Ok?
    requires Holds(NetConstraint(net, wm).value.value, env)
    ensures net.dests != [] && net.dests[0].name in wm
    ensures forall k :: 0 <= k < |net.args| ==> net.args[k].name in wm
    ensures Bit(Signal(wm, env, net.dests[0]), i) == 1 <==>
      exists k :: 0 <= k < |net.args| && Bit(Signal(wm, env, net.args[k]), i) == 1
  {
    OperandsAreArgs(net, wm);
    var es := Variables(wm, net.args).value;
    OrAllAt(es, env, i);
    assert forall k :: 0 <= k < |net.args| ==> Eval(es[k], env) == Signal(wm, env, net.args[k]);
  }

  /** XOR: each bit of dest is the parity of that bit across the args. */
  lemma XorMeaning(net: Net, wm: map<string, nat>, env: Assignment, i: nat)
    requires net.op == '^'
    requires NetConstraint(net, wm).Ok?
    requires Holds(NetConstraint(net, wm).value.value, env)
    ensures net.dests != [] && net.dests[0].name in wm
    ensures forall k :: 0 <= k < |net.args| ==> net.args[k].name in wm
    ensures Bit(Signal(wm, env, net.dests[0]), i) ==
      OnesAt(seq(|net.args|, k requires 0 <= k < |net.args| => Signal(wm, env, net.args[k])), i) % 2
  {
    OperandsAreArgs(net, wm);
    var es := Variables(wm, net.args).value;
    XorAllAt(es, env, i);
    assert EvalEach(es, env) == seq(|net.args|, k requires 0 <= k < |net.args| => Signal(wm, env, net.args[k]));
  }

  /** NOT: within arg0's width every bit of dest is the flipped bit of arg0; above it, clear. */
  lemma NotMeaning(net: Net, wm: map<string, nat>, env: Assignment, i: nat)
    requires net.op == '~'
    requires NetConstraint(net, wm).Ok?
    requires Holds(NetConstraint(net, wm).value.value, env)
    ensures net.args != [] && net.dests != [] && net.args[0].name in wm && net.dests[0].name in wm
    ensures Bit(Signal(wm, env, net.dests[0]), i) ==
      if i < wm[net.args[0].name] then 1 - Bit(Signal(wm, env, net.args[0]), i) else 0
  {
    BitNotAt(Signal(wm, env, net.args[0]), wm[net.args[0].name], i);
  }

  /**
   * Select: the constraint fixes dest to bits start..end of arg0, inclusive,
   * a value end - start + 1 bits wide; start is op_param[0], end op_param[1].
   */
  lemma SelectMeaning(net: Net, wm: map<string, nat>, env: Assignment)
    requires net.op == 's'
    requires NetConstraint(net, wm).Ok?
    ensures net.param.Range? && net.args != [] && net.dests != []
    ensures net.args[0].name in wm && net.dests[0].name in wm
    ensures var c, start, end := NetConstraint(net, wm).value.value, net.param.start, net.param.end;
      start <= end ==>
        && Width(c.rhs) == end - start + 1
        && (Holds(c, env) ==>
              forall i :: 0 <= i <= end - start ==>
                Bit(Signal(wm, env, net.dests[0]), i) == Bit(Signal(wm, env, net.args[0]), start + i))
  {
    var c, start, end := NetConstraint(net, wm).value.value, net.param.start, net.param.end;
    if start <= end && Holds(c, env) {
      var a := Signal(wm, env, net.args[0]);
      forall i | 0 <= i <= end - start
        ensures Bit(Signal(wm, env, net.dests[0]), i) == Bit(a, start + i)
      {
        TruncatedBit(ShiftRight(a, start), end - start + 1, i);
        ShiftedBit(a, start, i);
      }
    }
  }

  /** The sum of the table widths of ws. */
  function TableWidth(wm: map<string, nat>, ws: seq<Wire>): nat
    requires forall k :: 0 <= k < |ws| ==> ws[k].name in wm
  {
    if ws == [] then 0 else wm[ws[0].name] + TableWidth(wm, ws[1..])
  }

  lemma {:induction false} SumWidthOfArgs(wm: map<string, nat>, ws: seq<Wire>)
    requires forall k :: 0 <= k < |ws| ==> ws[k].name in wm
    ensures Variables(wm, ws).Ok?
    ensures SumWidth(Variables(wm, ws).value) == TableWidth(wm, ws)
  {
    VariablesFound(wm, ws);
    if ws != [] {
      SumWidthOfArgs(wm, ws[1..]);
    }
  }

  /**
   * Concat: the result is as wide as all the args together, and the first
   * arg occupies its most-significant bits.
   */
  lemma ConcatMeaning(net: Net, wm: map<string, nat>, env: Assignment)
    requires net.op == 'c'
    requires NetConstraint(net, wm).Ok?
    ensures net.dests != [] && net.dests[0].name in wm
    ensures forall k :: 0 <= k < |net.args| ==> net.args[k].name in wm
    ensures Width(NetConstraint(net, wm).value.value.rhs) == TableWidth(wm, net.args)
    ensures net.args != [] && Holds(NetConstraint(net, wm).value.value, env) ==>
      Signal(wm, env, net.dests[0]) / Pow2(TableWidth(wm, net.args[1..])) == Signal(wm, env, net.args[0])
  {
    OperandsAreArgs(net, wm);
    SumWidthOfArgs(wm, net.args);
    var es := Variables(wm, net.args).value;
    if net.args != [] {
      ConcatSplits(es, env);
      assert Variables(wm, net.args[1..]).value == es[1..];
      SumWidthOfArgs(wm, net.args[1..]);
    }
  }

  /**
   * Constant: with an integer op_param, the only value dest can take is that
   * integer read as an unsigned number of dest's width; with no op_param, the
   * constraint is `False` and holds for no assignment.
   */
  lemma ConstMeaning(net: Net, wm: map<string, nat>, env: Assignment)
    requires net.op == 'x'
    requires NetConstraint(net, wm).Ok?
    ensures NetConstraint(net, wm).value.Some? && !net.param.Range?
    ensures net.dests != [] && net.dests[0].name in wm
    ensures Holds(NetConstraint(net, wm).value.value, env) <==>
      net.param.Literal? && Signal(wm, env, net.dests[0]) == net.param.value % Pow2(wm[net.dests[0].name])
  {
  }
}
