/**
 * Concrete blocks, the constraints `Encode` yields for them, and what those
 * constraints force under the model's denotation.
 */
module Scenarios {
  import opened Bits
  import opened Netlist
  import opened Smt
  import opened Allocation
  import opened Generation
  import opened Encoder

  /** The table of a block whose references are three wires with distinct names. */
  lemma {:induction false} TableOfThree(block: seq<Net>, x: Wire, y: Wire, z: Wire)
    requires References(block) == [x, y, z]
    requires x.name != y.name && y.name != z.name && x.name != z.name
    ensures WireTable(block) == map[x.name := x.width, y.name := y.width, z.name := z.width]
  {
    var ws := References(block);
    DeclaredKeys(ws);
    DeclaredFirstWins(ws, 0);
    DeclaredFirstWins(ws, 1);
    DeclaredFirstWins(ws, 2);
    assert Names(ws) == {x.name, y.name, z.name} by {
      assert ws[0] == x && ws[1] == y && ws[2] == z;
    }
  }

  /** The table of a block whose references are two wires with distinct names. */
  lemma {:induction false} TableOfTwo(block: seq<Net>, x: Wire, y: Wire)
    requires References(block) == [x, y]
    requires x.name != y.name
    ensures WireTable(block) == map[x.name := x.width, y.name := y.width]
  {
    var ws := References(block);
    DeclaredKeys(ws);
    DeclaredFirstWins(ws, 0);
    DeclaredFirstWins(ws, 1);
    assert Names(ws) == {x.name, y.name} by {
      assert ws[0] == x && ws[1] == y;
    }
  }

  /** A one-net block is encoded to that net's constraint, read against the net's own table. */
  lemma OneNet(net: Net, c: Constraint)
    requires NetConstraint(net, WireTable([net])) == Ok(Some(c))
    ensures Encode([net]) == Ok([c])
  {
    var wm := WireTable([net]);
    assert [net][..0] == [];
    assert Constraints([], wm) == Ok([]);
    assert [] + [c] == [c];
  }

  lemma HoldsOne(c: Constraint, env: Assignment)
    ensures HoldsAll([c], env) <==> Holds(c, env)
  {
    assert c in [c];
  }

  lemma VariablesOfTwo(wm: map<string, nat>, x: Wire, y: Wire)
    requires x.name in wm && y.name in wm
    ensures Variables(wm, [x, y]) == Ok([Var(x.name, wm[x.name]), Var(y.name, wm[y.name])])
  {
    VariablesFound(wm, [x, y]);
    var vs := Variables(wm, [x, y]).value;
    assert vs == [vs[0], vs[1]];
  }

  /** AND(a[1], b[1]) -> c[1]. */
  function AndNet(): Net
  {
    Net('&', [Wire("a", 1), Wire("b", 1)], [Wire("c", 1)], NoParam)
  }

  function AndConstraint(): Constraint
  {
    Eq(Var("c", 1), And([Var("a", 1), Var("b", 1)]))
  }

  /** Its constraint is c == a AND b. */
  lemma AndEncode()
    ensures Encode([AndNet()]) == Ok([AndConstraint()])
  {
    assert References([AndNet()]) == [Wire("a", 1), Wire("b", 1), Wire("c", 1)];
    TableOfThree([AndNet()], Wire("a", 1), Wire("b", 1), Wire("c", 1));
    VariablesOfTwo(WireTable([AndNet()]), Wire("a", 1), Wire("b", 1));
    OneNet(AndNet(), Eq(Var("c", 1), And([Var("a", 1), Var("b", 1)])));
  }

  /** a = b = 1 forces c = 1, and a = 1, b = 0 forces c = 0. */
  lemma AndScenario(env: Assignment)
    requires "a" in env && "b" in env && "c" in env
    ensures Holds(AndConstraint(), env) && env["a"] == 1 && env["b"] == 1 ==> env["c"] % 2 == 1
    ensures Holds(AndConstraint(), env) && env["a"] == 1 && env["b"] == 0 ==> env["c"] % 2 == 0
  {
    if Holds(AndConstraint(), env) {
      assert Pow2(1) == 2;
      AndValue("c", "a", "b", 1, env);
      assert BitAnd(1, 1) == 1 by {
        assert BitAnd(0, 0) == 0;
      }
      assert BitAnd(1, 0) == 0 by {
        assert BitAnd(0, 0) == 0;
      }
    }
  }

  /** concat(a[4], b[4]) -> c[8]. */
  function ConcatNet(): Net
  {
    Net('c', [Wire("a", 4), Wire("b", 4)], [Wire("c", 8)], NoParam)
  }

  function ConcatConstraint(): Constraint
  {
    Eq(Var("c", 8), Concat([Var("a", 4), Var("b", 4)]))
  }

  /** Its constraint is c == concat(a, b). */
  lemma ConcatEncode()
    ensures Encode([ConcatNet()]) == Ok([ConcatConstraint()])
  {
    assert References([ConcatNet()]) == [Wire("a", 4), Wire("b", 4), Wire("c", 8)];
    TableOfThree([ConcatNet()], Wire("a", 4), Wire("b", 4), Wire("c", 8));
    VariablesOfTwo(WireTable([ConcatNet()]), Wire("a", 4), Wire("b", 4));
    OneNet(ConcatNet(), Eq(Var("c", 8), Concat([Var("a", 4), Var("b", 4)])));
  }

  /** With a = 0xA and b = 0x5 the only value of c is 0xA5: a takes the high nibble. */
  lemma ConcatScenario(env: Assignment)
    requires "c" in env && env == map["a" := 0xA, "b" := 0x5, "c" := env["c"]]
    ensures Holds(ConcatConstraint(), env) <==> env["c"] % 256 == 0xA5
  {
    var es := [Var("a", 4), Var("b", 4)];
    ConcatOfTwo(Var("a", 4), Var("b", 4), env);
    assert Pow2(4) == 16 && Pow2(8) == 256 by {
      assert Pow2(2) == 4;
    }
    assert env["a"] == 0xA && env["b"] == 0x5;
    assert Eval(Var("a", 4), env) == 0xA && Eval(Var("b", 4), env) == 0x5;
    assert Eval(Concat(es), env) == 0xA * 16 + 0x5;
  }

  lemma ConcatOfTwo(x: Expr, y: Expr, env: Assignment)
    ensures Eval(Concat([x, y]), env) == Eval(x, env) * Pow2(Width(y)) + Eval(y, env)
  {
    var es := [x, y];
    assert es[1..] == [y] && es[1..][1..] == [];
    assert SumWidth(es[1..]) == Width(y);
    assert ConcatAll(es[1..], env) == Eval(y, env) * Pow2(0) + 0;
  }

  /** select(a[8], start = 2, end = 5) -> c[4]. */
  function SelectNet(): Net
  {
    Net('s', [Wire("a", 8)], [Wire("c", 4)], Range(2, 5))
  }

  function SelectConstraint(): Constraint
  {
    Eq(Var("c", 4), Extract(5, 2, Var("a", 8)))
  }

  /** Its constraint is c == extract(5, 2, a). */
  lemma SelectEncode()
    ensures Encode([SelectNet()]) == Ok([SelectConstraint()])
  {
    assert References([SelectNet()]) == [Wire("a", 8), Wire("c", 4)];
    TableOfTwo([SelectNet()], Wire("a", 8), Wire("c", 4));
    OneNet(SelectNet(), Eq(Var("c", 4), Extract(5, 2, Var("a", 8))));
  }

  /** With a = 0b1011_0100 the only value of c is bits 2 through 5 of a, 0b1101. */
  lemma SelectScenario(env: Assignment)
    requires "c" in env && env == map["a" := 0xB4, "c" := env["c"]]
    ensures Holds(SelectConstraint(), env) <==> env["c"] % 16 == 0xD
  {
    assert Pow2(4) == 16 && Pow2(8) == 256 by {
      assert Pow2(2) == 4;
    }
    assert Eval(Var("a", 8), env) == 0xB4;
    assert ShiftRight(0xB4, 2) == 0x2D;
    assert Eval(Extract(5, 2, Var("a", 8)), env) == Truncate(0x2D, 4) == 0xD;
  }

  /** const(value = 7) -> c[4]. */
  function ConstNet(): Net
  {
    Net('x', [], [Wire("c", 4)], Literal(7))
  }

  /** The only value of c is 7. */
  lemma ConstScenario(env: Assignment)
    requires "c" in env
    ensures Encode([ConstNet()]) == Ok([Eq(Var("c", 4), Const(7, 4))])
    ensures HoldsAll(Encode([ConstNet()]).value, env) <==> env["c"] % 16 == 7
  {
    var ws := References([ConstNet()]);
    assert ws == [Wire("c", 4)];
    DeclaredKeys(ws);
    DeclaredFirstWins(ws, 0);
    assert Names(ws) == {"c"};
    OneNet(ConstNet(), Eq(Var("c", 4), Const(7, 4)));
    HoldsOne(Eq(Var("c", 4), Const(7, 4)), env);
    assert Pow2(4) == 16 by {
      assert Pow2(2) == 4;
    }
  }

  /** register(a[1]) -> c[1], or the wire-copy net over the same wires. */
  function CopyNet(op: char): Net
  {
    Net(op, [Wire("a", 1)], [Wire("c", 1)], NoParam)
  }

  /** The register emits c == a and the wire copy a == c. */
  lemma CopyEncode(op: char)
    requires op == 'r' || op == 'w'
    ensures Encode([CopyNet(op)]) ==
      Ok([if op == 'r' then Eq(Var("c", 1), Var("a", 1)) else Eq(Var("a", 1), Var("c", 1))])
  {
    assert References([CopyNet(op)]) == [Wire("a", 1), Wire("c", 1)];
    TableOfTwo([CopyNet(op)], Wire("a", 1), Wire("c", 1));
    OneNet(CopyNet(op), if op == 'r' then Eq(Var("c", 1), Var("a", 1)) else Eq(Var("a", 1), Var("c", 1)));
  }

  /** The two blocks' constraints are satisfied by the same assignments. */
  lemma RegisterScenario(env: Assignment)
    ensures Encode([CopyNet('r')]).Ok? && Encode([CopyNet('w')]).Ok?
    ensures HoldsAll(Encode([CopyNet('r')]).value, env) <==> HoldsAll(Encode([CopyNet('w')]).value, env)
  {
    CopyEncode('r');
    CopyEncode('w');
    HoldsOne(Eq(Var("c", 1), Var("a", 1)), env);
    HoldsOne(Eq(Var("a", 1), Var("c", 1)), env);
  }

  /**
   * NOT(NOT a AND NOT b) -> y1 next to a OR b -> y2, all w bits wide.
   */
  function DeMorganBlock(w: nat): seq<Net>
  {
    [ Net('~', [Wire("a", w)], [Wire("na", w)], NoParam),
      Net('~', [Wire("b", w)], [Wire("nb", w)], NoParam),
      Net('&', [Wire("na", w), Wire("nb", w)], [Wire("t", w)], NoParam),
      Net('~', [Wire("t", w)], [Wire("y1", w)], NoParam),
      Net('|', [Wire("a", w), Wire("b", w)], [Wire("y2", w)], NoParam) ]
  }

  /** The constraints the De Morgan block yields, in net order. */
  function DeMorganConstraints(w: nat): seq<Constraint>
  {
    [ Eq(Var("na", w), Not(Var("a", w))),
      Eq(Var("nb", w), Not(Var("b", w))),
      Eq(Var("t", w), And([Var("na", w), Var("nb", w)])),
      Eq(Var("y1", w), Not(Var("t", w))),
      Eq(Var("y2", w), Or([Var("a", w), Var("b", w)])) ]
  }

  /** Every wire of ws is w bits wide. */
  predicate AllWidth(ws: seq<Wire>, w: nat)
  {
    forall x :: x in ws ==> x.width == w
  }

  /** A block whose nets use only w-bit wires references only w-bit wires. */
  lemma {:induction false} UniformReferences(block: seq<Net>, w: nat)
    requires forall i :: 0 <= i < |block| ==> AllWidth(block[i].args, w) && AllWidth(block[i].dests, w)
    ensures AllWidth(References(block), w)
  {
    if block != [] {
      UniformReferences(block[..|block| - 1], w);
    }
  }

  /** When every reference has width w, every table entry is w. */
  lemma {:induction false} FirstWidthUniform(ws: seq<Wire>, w: nat, n: string)
    requires AllWidth(ws, w)
    requires n in Names(ws)
    ensures FirstWidth(ws, n) == w
  {
    if ws[0].name != n {
      assert n in Names(ws[1..]) by {
        var x :| x in ws && x.name == n;
        assert x in ws[1..];
      }
      FirstWidthUniform(ws[1..], w, n);
    }
  }

  /** The block's table gives each of its seven wires width w. */
  lemma DeMorganTable(w: nat)
    ensures var wm := WireTable(DeMorganBlock(w));
      forall n :: n in ["a", "na", "b", "nb", "t", "y1", "y2"] ==> n in wm && wm[n] == w
  {
    var block := DeMorganBlock(w);
    var ws := References(block);
    UniformReferences(block, w);
    DeclaredCoversBlock(block);
    assert block[0].args[0].name == "a" && block[0].dests[0].name == "na";
    assert block[1].args[0].name == "b" && block[1].dests[0].name == "nb";
    assert block[2].dests[0].name == "t" && block[3].dests[0].name == "y1" && block[4].dests[0].name == "y2";
    DeclaredKeys(ws);
    forall n | n in Names(ws)
      ensures FirstWidth(ws, n) == w
    {
      FirstWidthUniform(ws, w, n);
    }
  }

  /** A NOT net over table entries of width w. */
  lemma NotNetYields(x: string, y: string, w: nat, wm: map<string, nat>)
    requires x in wm && y in wm && wm[x] == w && wm[y] == w
    ensures NetConstraint(Net('~', [Wire(x, w)], [Wire(y, w)], NoParam), wm) == Ok(Some(Eq(Var(y, w), Not(Var(x, w)))))
  {
  }

  /** A two-input AND or OR net over table entries of width w. */
  lemma BinaryNetYields(op: char, x1: string, x2: string, y: string, w: nat, wm: map<string, nat>)
    requires op == '&' || op == '|'
    requires x1 in wm && x2 in wm && y in wm && wm[x1] == w && wm[x2] == w && wm[y] == w
    ensures var operands := [Var(x1, w), Var(x2, w)];
      NetConstraint(Net(op, [Wire(x1, w), Wire(x2, w)], [Wire(y, w)], NoParam), wm) ==
        Ok(Some(Eq(Var(y, w), if op == '&' then And(operands) else Or(operands))))
  {
    VariablesOfTwo(wm, Wire(x1, w), Wire(x2, w));
  }

  /** The generation pass on the De Morgan block, against any table that gives its seven wires width w. */
  lemma DeMorganGenerate(w: nat, wm: map<string, nat>)
    requires forall n :: n in ["a", "na", "b", "nb", "t", "y1", "y2"] ==> n in wm && wm[n] == w
    ensures Constraints(DeMorganBlock(w), wm) == Ok(DeMorganConstraints(w))
  {
    assert "a" in ["a", "na", "b", "nb", "t", "y1", "y2"];
    NotNetYields("a", "na", w, wm);
    NotNetYields("b", "nb", w, wm);
    BinaryNetYields('&', "na", "nb", "t", w, wm);
    NotNetYields("t", "y1", w, wm);
    BinaryNetYields('|', "a", "b", "y2", w, wm);
    EveryNetEmits(DeMorganBlock(w), wm, DeMorganConstraints(w));
  }

  /** The whole encoder on the De Morgan block. */
  lemma DeMorganEncode(w: nat)
    ensures Encode(DeMorganBlock(w)) == Ok(DeMorganConstraints(w))
  {
    DeMorganTable(w);
    DeMorganGenerate(w, WireTable(DeMorganBlock(w)));
  }

  /**
   * Equivalence check: every assignment that satisfies the constraints gives
   * y1 and y2 the same value, so asserting that they differ is unsatisfiable.
   */
  lemma DeMorganScenario(w: nat, env: Assignment)
    ensures Encode(DeMorganBlock(w)).Ok?
    ensures HoldsAll(Encode(DeMorganBlock(w)).value, env) ==>
      Eval(Var("y1", w), env) == Eval(Var("y2", w), env)
  {
    DeMorganEncode(w);
    var cs := DeMorganConstraints(w);
    if HoldsAll(cs, env) {
      assert cs[0] in cs && cs[1] in cs && cs[2] in cs && cs[3] in cs && cs[4] in cs;
      DeMorganValues(w, env);
    }
  }

  /** The value step of the equivalence: y1 and y2 agree once each constraint holds. */
  lemma DeMorganValues(w: nat, env: Assignment)
    requires forall k :: 0 <= k < 5 ==> Holds(DeMorganConstraints(w)[k], env)
    ensures Eval(Var("y1", w), env) == Eval(Var("y2", w), env)
  {
    var cs := DeMorganConstraints(w);
    assert Holds(cs[0], env) && Holds(cs[1], env) && Holds(cs[2], env) && Holds(cs[3], env) && Holds(cs[4], env);
    var a, b := Eval(Var("a", w), env), Eval(Var("b", w), env);
    EvalFits(Var("a", w), env);
    EvalFits(Var("b", w), env);
    NotValue("na", "a", w, env);
    NotValue("nb", "b", w, env);
    AndValue("t", "na", "nb", w, env);
    NotValue("y1", "t", w, env);
    OrValue("y2", "a", "b", w, env);
    DeMorgan(a, b, w);
  }

  lemma NotValue(y: string, x: string, w: nat, env: Assignment)
    requires Holds(Eq(Var(y, w), Not(Var(x, w))), env)
    ensures Eval(Var(y, w), env) == BitNot(Eval(Var(x, w), env), w)
  {
  }

  lemma AndValue(y: string, x1: string, x2: string, w: nat, env: Assignment)
    requires Holds(Eq(Var(y, w), And([Var(x1, w), Var(x2, w)])), env)
    ensures Eval(Var(y, w), env) == BitAnd(Eval(Var(x1, w), env), Eval(Var(x2, w), env))
  {
    var es := [Var(x1, w), Var(x2, w)];
    assert es[1..] == [Var(x2, w)];
    assert AndAll(es[1..], env) == Eval(Var(x2, w), env);
    assert AndAll(es, env) == BitAnd(Eval(es[0], env), AndAll(es[1..], env));
  }

  lemma OrValue(y: string, x1: string, x2: string, w: nat, env: Assignment)
    requires Holds(Eq(Var(y, w), Or([Var(x1, w), Var(x2, w)])), env)
    ensures Eval(Var(y, w), env) == BitOr(Eval(Var(x1, w), env), Eval(Var(x2, w), env))
  {
    var es := [Var(x1, w), Var(x2, w)];
    assert es[1..] == [Var(x2, w)] && es[1..][1..] == [];
    assert OrAll(es[1..][1..], env) == 0;
    assert OrAll(es[1..], env) == BitOr(Eval(Var(x2, w), env), 0);
    BitOrZero(Eval(Var(x2, w), env));
    assert OrAll(es, env) == BitOr(Eval(es[0], env), OrAll(es[1..], env));
  }
}
