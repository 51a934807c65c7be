/**
 * The generation pass of `net_to_smt`: one equality constraint per net whose
 * op character is recognised, in net order, read against the wire table.
 *
 * The source raises a Python exception where a net is malformed; here those
 * are the faults of a `Result`, checked in the order the source evaluates
 * its subscripts.
 */
module Generation {
  import opened Netlist
  import opened Smt

  /** The exception the source raises. */
  datatype Fault =
    | IndexError            // args[0] or dests[0] of an empty list
    | KeyError(name: string) // a wire name with no table entry
    | ParamError            // op_param of the wrong shape for the op

  datatype Option<T> = None | Some(value: T)

  datatype Result<T> = Ok(value: T) | Err(fault: Fault) {
    predicate IsFailure() { Err? }
    function PropagateFailure<U>(): Result<U> requires Err? { Err(fault) }
    function Extract(): T requires Ok? { value }
  }

  /** `wire_map[w.name]`. */
  function Variable(wm: map<string, nat>, w: Wire): Result<Expr>
  {
    if w.name in wm then Ok(Var(w.name, wm[w.name])) else Err(KeyError(w.name))
  }

  /** `wire_map[ws[0].name]`, as for `net.args[0]` and `net.dests[0]`. */
  function FirstVariable(wm: map<string, nat>, ws: seq<Wire>): Result<Expr>
  {
    if ws == [] then Err(IndexError) else Variable(wm, ws[0])
  }

  /** `[wire_map[arg.name] for arg in ws]`: stops at the first name missing from the table. */
  function Variables(wm: map<string, nat>, ws: seq<Wire>): Result<seq<Expr>>
  {
    if ws == [] then Ok([])
    else
      var v :- Variable(wm, ws[0]);
      var vs :- Variables(wm, ws[1..]);
      Ok([v] + vs)
  }

  /**
   * The constraint one net contributes: Some equality for each recognised op,
   * None for any other op character.
   */
  function NetConstraint(net: Net, wm: map<string, nat>): Result<Option<Constraint>>
  {
    match net.op
    case 'w' =>
      var src :- FirstVariable(wm, net.args);
      var dst :- FirstVariable(wm, net.dests);
      Ok(Some(Eq(src, dst)))
    case '&' =>
      var result :- FirstVariable(wm, net.dests);
      var args :- Variables(wm, net.args);
      Ok(Some(Eq(result, And(args))))
    case '|' =>
      var result :- FirstVariable(wm, net.dests);
      var args :- Variables(wm, net.args);
      Ok(Some(Eq(result, Or(args))))
    case '^' =>
      var result :- FirstVariable(wm, net.dests);
      var args :- Variables(wm, net.args);
      Ok(Some(Eq(result, Xor(args))))
    case '~' =>
      var result :- FirstVariable(wm, net.dests);
      var arg :- FirstVariable(wm, net.args);
      Ok(Some(Eq(result, Not(arg))))
    case 'c' =>
      var result :- FirstVariable(wm, net.dests);
      var args :- Variables(wm, net.args);
      Ok(Some(Eq(result, Concat(args))))
    case 's' =>
      var result :- FirstVariable(wm, net.dests);
      var arg :- FirstVariable(wm, net.args);
      if net.param.Range? then Ok(Some(Eq(result, Extract(net.param.end, net.param.start, arg))))
      else Err(ParamError)
    case 'r' =>
      var result :- FirstVariable(wm, net.dests);
      var arg :- FirstVariable(wm, net.args);
      Ok(Some(Eq(result, arg)))
    case 'x' =>
      var result :- FirstVariable(wm, net.dests);
      match net.param {
        case Literal(value) => Ok(Some(Eq(result, Const(value, Width(result)))))
        case NoParam => Ok(Some(FalseConstraint()))
        case Range(_, _) => Err(ParamError)
      }
    case _ => Ok(None)
  }

  /**
   * Specification of the generation loop: the constraints of the nets in
   * order, or the fault of the first net that raises one.
   */
  function Constraints(block: seq<Net>, wm: map<string, nat>): Result<seq<Constraint>>
  {
    if block == [] then Ok([])
    else
      var cs :- Constraints(block[..|block| - 1], wm);
      var c :- NetConstraint(block[|block| - 1], wm);
      if c.Some? then Ok(cs + [c.value]) else Ok(cs)
  }

  /** The generation loop: appends each net's constraint, stopping at the first fault. */
  method GenerateConstraints(block: seq<Net>, wm: map<string, nat>) returns (r: Result<seq<Constraint>>)
    ensures r == Constraints(block, wm)
  {
    var constraints: seq<Constraint> := [];
    for i := 0 to |block|
      invariant Constraints(block[..i], wm) == Ok(constraints)
    {
      assert block[..i + 1][..i] == block[..i];
      var c := NetConstraint(block[i], wm);
      if c.Err? {
        PrefixFault(block, wm, i + 1);
        return Err(c.fault);
      }
      if c.value.Some? {
        constraints := constraints + [c.value.value];
      }
    }
    assert block[..|block|] == block;
    r := Ok(constraints);
  }

  /** A fault in a prefix of the block is the fault of the whole block. */
  lemma {:induction false} PrefixFault(block: seq<Net>, wm: map<string, nat>, n: nat)
    requires n <= |block| && Constraints(block[..n], wm).Err?
    ensures Constraints(block, wm) == Constraints(block[..n], wm)
    decreases |block| - n
  {
    if n < |block| {
      assert block[..n + 1][..n] == block[..n];
      PrefixFault(block, wm, n + 1);
    } else {
      assert block[..n] == block;
    }
  }

  /** A net the source handles without an exception: its subscripts exist and its parameter has the right shape. */
  predicate WellShaped(net: Net)
  {
    match net.op
    case 'w' => net.args != [] && net.dests != []
    case '~' => net.args != [] && net.dests != []
    case 'r' => net.args != [] && net.dests != []
    case '&' => net.dests != []
    case '|' => net.dests != []
    case '^' => net.dests != []
    case 'c' => net.dests != []
    case 's' => net.args != [] && net.dests != [] && net.param.Range?
    case 'x' => net.dests != [] && !net.param.Range?
    case _ => true
  }

  /** Every wire a net references has a table entry. */
  predicate Allocated(net: Net, wm: map<string, nat>)
  {
    (forall k :: 0 <= k < |net.args| ==> net.args[k].name in wm) &&
    (forall k :: 0 <= k < |net.dests| ==> net.dests[k].name in wm)
  }

  /** Looking up wires whose names are all in the table succeeds, one variable per wire, in order. */
  lemma {:induction false} VariablesFound(wm: map<string, nat>, ws: seq<Wire>)
    requires forall k :: 0 <= k < |ws| ==> ws[k].name in wm
    ensures Variables(wm, ws).Ok?
    ensures |Variables(wm, ws).value| == |ws|
    ensures forall k :: 0 <= k < |ws| ==> Variables(wm, ws).value[k] == Var(ws[k].name, wm[ws[k].name])
  {
    if ws != [] {
      VariablesFound(wm, ws[1..]);
    }
  }

  /** The lookup succeeds only when every name is in the table. */
  lemma {:induction false} VariablesNeedTable(wm: map<string, nat>, ws: seq<Wire>)
    ensures Variables(wm, ws).Ok? ==> forall k :: 0 <= k < |ws| ==> ws[k].name in wm
  {
    if ws != [] {
      VariablesNeedTable(wm, ws[1..]);
      assert forall k :: 1 <= k < |ws| ==> ws[k] == ws[1..][k - 1];
    }
  }

  /**
   * With every referenced wire allocated, a net is encoded without a fault
   * exactly when it is well shaped; a recognised op then yields a constraint
   * and any other op yields none.
   */
  lemma NetSucceeds(net: Net, wm: map<string, nat>)
    requires Allocated(net, wm)
    ensures NetConstraint(net, wm).Ok? <==> WellShaped(net)
    ensures NetConstraint(net, wm).Ok? ==> (NetConstraint(net, wm).value.Some? <==> IsRecognised(net.op))
  {
    VariablesFound(wm, net.args);
  }

  /** A net whose op is not one of the nine yields no constraint and no fault, whatever its wires and parameter. */
  lemma UnrecognisedSkipped(net: Net, wm: map<string, nat>)
    requires !IsRecognised(net.op)
    ensures NetConstraint(net, wm) == Ok(None)
  {
  }

  /** A recognised op that raises no fault yields exactly one constraint. */
  lemma RecognisedEmits(net: Net, wm: map<string, nat>)
    requires IsRecognised(net.op) && NetConstraint(net, wm).Ok?
    ensures NetConstraint(net, wm).value.Some?
  {
  }

  /**
   * A KeyError names a wire the net references that has no table entry.
   */
  lemma {:induction false} KeyErrorIsMissingWire(net: Net, wm: map<string, nat>)
    requires NetConstraint(net, wm).Err? && NetConstraint(net, wm).fault.KeyError?
    ensures var n := NetConstraint(net, wm).fault.name;
      n !in wm &&
      ((exists k :: 0 <= k < |net.args| && net.args[k].name == n) ||
       (exists k :: 0 <= k < |net.dests| && net.dests[k].name == n))
  {
    var n := NetConstraint(net, wm).fault.name;
    if FirstVariable(wm, net.dests) == Err(KeyError(n)) {
      assert net.dests[0].name == n;
    } else if FirstVariable(wm, net.args) == Err(KeyError(n)) {
      assert net.args[0].name == n;
    } else {
      VariablesKeyError(wm, net.args, n);
    }
  }

  lemma {:induction false} VariablesKeyError(wm: map<string, nat>, ws: seq<Wire>, n: string)
    requires Variables(wm, ws) == Err(KeyError(n))
    ensures n !in wm && exists k :: 0 <= k < |ws| && ws[k].name == n
  {
    if ws[0].name in wm {
      VariablesKeyError(wm, ws[1..], n);
      var k :| 0 <= k < |ws[1..]| && ws[1..][k].name == n;
      assert ws[k + 1].name == n;
    } else {
      assert ws[0].name == n;
    }
  }

  /**
   * Register and wire-copy nets over the same wires fault together, and
   * otherwise emit the same equality with its sides swapped.
   */
  lemma RegisterIsSwappedCopy(copy: Net, wm: map<string, nat>)
    requires copy.op == 'w'
    ensures var reg := copy.(op := 'r');
      && (NetConstraint(reg, wm).Ok? <==> NetConstraint(copy, wm).Ok?)
      && (NetConstraint(copy, wm).Ok? ==>
            NetConstraint(reg, wm).value == Some(Flip(NetConstraint(copy, wm).value.value)))
  {
  }

  /**
   * Order and cardinality: the constraints of a block that raises no fault
   * are those of its recognised nets, one each, in net order.
   */
  lemma {:induction false} ConstraintsInOrder(block: seq<Net>, wm: map<string, nat>)
    requires Constraints(block, wm).Ok?
    ensures |Constraints(block, wm).value| == |RecognisedNets(block)|
    ensures forall k :: 0 <= k < |RecognisedNets(block)| ==>
      NetConstraint(RecognisedNets(block)[k], wm) == Ok(Some(Constraints(block, wm).value[k]))
  {
    if block != [] {
      var prefix, last := block[..|block| - 1], block[|block| - 1];
      ConstraintsInOrder(prefix, wm);
      var c := NetConstraint(last, wm);
      if IsRecognised(last.op) {
        RecognisedEmits(last, wm);
      }
    }
  }

  /**
   * Converse of `ConstraintsInOrder` for a block of nets that all emit: if
   * net k yields cs[k] for every k, the pass returns exactly cs.
   */
  lemma {:induction false} EveryNetEmits(block: seq<Net>, wm: map<string, nat>, cs: seq<Constraint>)
    requires |cs| == |block|
    requires forall k :: 0 <= k < |block| ==> NetConstraint(block[k], wm) == Ok(Some(cs[k]))
    ensures Constraints(block, wm) == Ok(cs)
  {
    if block != [] {
      var n := |block| - 1;
      EveryNetEmits(block[..n], wm, cs[..n]);
      assert cs[..n] + [cs[n]] == cs;
    }
  }

  /**
   * Converse of `ConstraintsInOrder`: when the k-th recognised net yields the
   * k-th constraint of cs, for every k, the pass returns exactly cs, whatever
   * unrecognised nets lie between them.
   */
  lemma RecognisedNetsEmit(block: seq<Net>, wm: map<string, nat>, cs: seq<Constraint>)
    requires |cs| == |RecognisedNets(block)|
    requires forall k :: 0 <= k < |cs| ==> NetConstraint(RecognisedNets(block)[k], wm) == Ok(Some(cs[k]))
    ensures Constraints(block, wm) == Ok(cs)
  {
    OnlyRecognisedMatter(block, wm);
    EveryNetEmits(RecognisedNets(block), wm, cs);
  }

  /**
   * The pass succeeds exactly when every net does; otherwise its fault is the
   * fault of the first net that raises one.
   */
  lemma {:induction false} ConstraintsFault(block: seq<Net>, wm: map<string, nat>)
    ensures Constraints(block, wm).Ok? <==> forall i :: 0 <= i < |block| ==> NetConstraint(block[i], wm).Ok?
    ensures Constraints(block, wm).Err? ==>
      exists i :: 0 <= i < |block| && NetConstraint(block[i], wm) == Err(Constraints(block, wm).fault) &&
        forall j :: 0 <= j < i ==> NetConstraint(block[j], wm).Ok?
  {
    if block != [] {
      var prefix := block[..|block| - 1];
      ConstraintsFault(prefix, wm);
      assert forall i :: 0 <= i < |prefix| ==> prefix[i] == block[i];
    }
  }

  /** Dropping the nets with unrecognised ops does not change the outcome of the pass. */
  lemma {:induction false} OnlyRecognisedMatter(block: seq<Net>, wm: map<string, nat>)
    ensures Constraints(RecognisedNets(block), wm) == Constraints(block, wm)
  {
    if block != [] {
      var prefix, last := block[..|block| - 1], block[|block| - 1];
      OnlyRecognisedMatter(prefix, wm);
      if IsRecognised(last.op) {
        var rs := RecognisedNets(prefix) + [last];
        assert RecognisedNets(block) == rs;
        assert rs[..|rs| - 1] == RecognisedNets(prefix);
        SameLastNet(rs, block, wm);
      } else {
        assert RecognisedNets(block) == RecognisedNets(prefix);
        UnrecognisedSkipped(last, wm);
      }
    }
  }

  /** Two blocks with the same outcome on all but their last net, and the same last net, have the same outcome. */
  lemma SameLastNet(b1: seq<Net>, b2: seq<Net>, wm: map<string, nat>)
    requires b1 != [] && b2 != [] && b1[|b1| - 1] == b2[|b2| - 1]
    requires Constraints(b1[..|b1| - 1], wm) == Constraints(b2[..|b2| - 1], wm)
    ensures Constraints(b1, wm) == Constraints(b2, wm)
  {
  }

  /** Every variable of every emitted constraint is an entry of the table, with the table's width. */
  lemma {:induction false} ConstraintsUseTable(block: seq<Net>, wm: map<string, nat>)
    requires Constraints(block, wm).Ok?
    ensures forall c :: c in Constraints(block, wm).value ==> VarsIn(c.lhs, wm) && VarsIn(c.rhs, wm)
  {
    if block != [] {
      var prefix, last := block[..|block| - 1], block[|block| - 1];
      ConstraintsUseTable(prefix, wm);
      if NetConstraint(last, wm).value.Some? {
        NetUsesTable(last, wm);
      }
    }
  }

  lemma NetUsesTable(net: Net, wm: map<string, nat>)
    requires NetConstraint(net, wm).Ok? && NetConstraint(net, wm).value.Some?
    ensures var c := NetConstraint(net, wm).value.value; VarsIn(c.lhs, wm) && VarsIn(c.rhs, wm)
  {
    if net.op in {'&', '|', '^', 'c'} {
      VariablesInTable(wm, net.args);
    }
  }

  lemma {:induction false} VariablesInTable(wm: map<string, nat>, ws: seq<Wire>)
    ensures Variables(wm, ws).Ok? ==> forall e :: e in Variables(wm, ws).value ==> VarsIn(e, wm)
  {
    if ws != [] {
      VariablesInTable(wm, ws[1..]);
    }
  }
}
