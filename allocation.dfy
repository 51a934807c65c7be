/**
 * The allocation pass of `net_to_smt`: one bit-vector variable per distinct
 * wire name, with the width of the first reference to that name.
 * The table maps a wire name to that width; the variable itself is the pair
 * of the name and the width (`Smt.Var`).
 */
module Allocation {
  import opened Netlist

  /** The width of the first wire in ws that is called `name`. */
  function FirstWidth(ws: seq<Wire>, name: string): nat
    requires name in Names(ws)
  {
    if ws[0].name == name then ws[0].width
    else
      assert name in Names(ws[1..]) by {
        var w :| w in ws && w.name == name;
        assert w in ws[1..];
      }
      FirstWidth(ws[1..], name)
  }

  /**
   * Reference table for the allocation pass: every name referenced in ws,
   * with the width of its first reference.
   */
  function Declared(ws: seq<Wire>): map<string, nat>
  {
    map n | n in Names(ws) :: FirstWidth(ws, n)
  }

  lemma {:induction false} FirstWidthSnoc(ws: seq<Wire>, w: Wire, name: string)
    requires name in Names(ws)
    ensures name in Names(ws + [w]) && FirstWidth(ws + [w], name) == FirstWidth(ws, name)
  {
    var w' :| w' in ws && w'.name == name;
    assert w' in ws + [w];
    if ws[0].name != name {
      assert (ws + [w])[1..] == ws[1..] + [w];
      FirstWidthSnoc(ws[1..], w, name);
    }
  }

  lemma {:induction false} FirstWidthFresh(ws: seq<Wire>, w: Wire)
    requires w.name !in Names(ws)
    ensures w.name in Names(ws + [w]) && FirstWidth(ws + [w], w.name) == w.width
  {
    assert (ws + [w])[|ws|] == w;
    if ws != [] {
      assert (ws + [w])[1..] == ws[1..] + [w];
      assert Names(ws[1..]) <= Names(ws);
      FirstWidthFresh(ws[1..], w);
    }
  }

  /**
   * One step of the allocation loop: a name already in the table keeps its
   * entry; a new name is added with the wire's width.
   */
  lemma DeclaredSnoc(ws: seq<Wire>, w: Wire)
    ensures Declared(ws + [w]) ==
      if w.name in Declared(ws) then Declared(ws) else Declared(ws)[w.name := w.width]
  {
    assert Names(ws + [w]) == Names(ws) + {w.name};
    forall n | n in Names(ws)
      ensures FirstWidth(ws + [w], n) == FirstWidth(ws, n)
    {
      FirstWidthSnoc(ws, w, n);
    }
    if w.name !in Names(ws) {
      FirstWidthFresh(ws, w);
    }
  }

  /**
   * The allocation pass: walks every net's args, then its dests, and adds a
   * wire's name with its width only when the name is not yet in the table.
   */
  method AllocateWires(block: seq<Net>) returns (wireMap: map<string, nat>)
    ensures wireMap == Declared(References(block))
  {
    wireMap := map[];
    for i := 0 to |block|
      invariant wireMap == Declared(References(block[..i]))
    {
      var net := block[i];
      ghost var before := References(block[..i]);
      assert before + net.args[..0] == before;
      for j := 0 to |net.args|
        invariant wireMap == Declared(before + net.args[..j])
      {
        var arg := net.args[j];
        assert before + net.args[..j + 1] == (before + net.args[..j]) + [arg];
        DeclaredSnoc(before + net.args[..j], arg);
        if arg.name !in wireMap {
          wireMap := wireMap[arg.name := arg.width];
        }
      }
      assert net.args[..|net.args|] == net.args;
      assert before + net.args + net.dests[..0] == before + net.args;
      for j := 0 to |net.dests|
        invariant wireMap == Declared(before + net.args + net.dests[..j])
      {
        var dest := net.dests[j];
        assert before + net.args + net.dests[..j + 1] == (before + net.args + net.dests[..j]) + [dest];
        DeclaredSnoc(before + net.args + net.dests[..j], dest);
        if dest.name !in wireMap {
          wireMap := wireMap[dest.name := dest.width];
        }
      }
      assert net.dests[..|net.dests|] == net.dests;
      assert block[..i + 1] == block[..i] + [net];
      ReferencesSnoc(block[..i], net);
    }
    assert block[..|block|] == block;
  }

  /** The table has exactly one entry for each name referenced anywhere in ws, and no other. */
  lemma DeclaredKeys(ws: seq<Wire>)
    ensures Declared(ws).Keys == Names(ws)
    ensures forall k :: 0 <= k < |ws| ==> ws[k].name in Declared(ws)
  {
    forall k | 0 <= k < |ws|
      ensures ws[k].name in Names(ws)
    {
      assert ws[k] in ws;
    }
  }

  /** Every arg and every dest of every net of a block has an entry in the table built for it. */
  lemma {:induction false} DeclaredCoversBlock(block: seq<Net>)
    ensures forall i, k :: 0 <= i < |block| && 0 <= k < |block[i].args| ==>
      block[i].args[k].name in Declared(References(block))
    ensures forall i, k :: 0 <= i < |block| && 0 <= k < |block[i].dests| ==>
      block[i].dests[k].name in Declared(References(block))
  {
    DeclaredKeys(References(block));
    forall i, k | 0 <= i < |block| && 0 <= k < |block[i].args|
      ensures block[i].args[k] in References(block)
    {
      NetReferenced(block, i);
    }
    forall i, k | 0 <= i < |block| && 0 <= k < |block[i].dests|
      ensures block[i].dests[k] in References(block)
    {
      NetReferenced(block, i);
    }
  }

  lemma {:induction false} NetReferenced(block: seq<Net>, i: nat)
    requires i < |block|
    ensures forall w :: w in block[i].args ==> w in References(block)
    ensures forall w :: w in block[i].dests ==> w in References(block)
  {
    var prefix := block[..|block| - 1];
    if i < |block| - 1 {
      NetReferenced(prefix, i);
    }
  }

  /** ws[k] is the first reference to its name. */
  predicate IsFirst(ws: seq<Wire>, k: nat)
    requires k < |ws|
  {
    forall j :: 0 <= j < k ==> ws[j].name != ws[k].name
  }

  /**
   * First width wins: the entry for a name is the width of its first
   * reference, whatever widths later references declare.
   */
  lemma {:induction false} DeclaredFirstWins(ws: seq<Wire>, k: nat)
    requires k < |ws| && IsFirst(ws, k)
    ensures ws[k].name in Declared(ws) && Declared(ws)[ws[k].name] == ws[k].width
  {
    DeclaredKeys(ws);
    if k > 0 {
      assert ws[0].name != ws[k].name;
      DeclaredFirstWins(ws[1..], k - 1);
    }
  }

  /**
   * Later references never change an entry: the table for a longer walk
   * agrees with the table for any prefix on every name the prefix declared.
   */
  lemma {:induction false} DeclaredStable(ws: seq<Wire>, more: seq<Wire>)
    ensures forall n :: n in Declared(ws) ==> n in Declared(ws + more) && Declared(ws + more)[n] == Declared(ws)[n]
  {
    if more == [] {
      assert ws + more == ws;
    } else {
      var init := more[..|more| - 1];
      DeclaredStable(ws, init);
      assert ws + more == (ws + init) + [more[|more| - 1]];
      DeclaredSnoc(ws + init, more[|more| - 1]);
    }
  }
}
