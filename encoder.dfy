/**
 * `net_to_smt`: the allocation pass followed by the generation pass over the
 * same block, returning the constraints (or the fault the source would raise).
 */
module Encoder {
  import opened Netlist
  import opened Smt
  import opened Allocation
  import opened Generation

  /** The wire table the allocation pass builds for a block. */
  function WireTable(block: seq<Net>): map<string, nat>
  {
    Declared(References(block))
  }

  /** Specification of `net_to_smt`: generation read against the block's own wire table. */
  function Encode(block: seq<Net>): Result<seq<Constraint>>
  {
    Constraints(block, WireTable(block))
  }

  /**
   * Both passes in order. The table is a value, so the generation pass reads
   * it and cannot change it.
   */
  method NetToSmt(block: seq<Net>) returns (r: Result<seq<Constraint>>)
    ensures r == Encode(block)
  {
    var wireMap := AllocateWires(block);
    r := GenerateConstraints(block, wireMap);
  }

  /** Every wire every net references is allocated before generation reads it. */
  lemma BlockAllocated(block: seq<Net>)
    ensures forall i :: 0 <= i < |block| ==> Allocated(block[i], WireTable(block))
  {
    DeclaredCoversBlock(block);
  }

  /**
   * The allocation pass is exhaustive, so encoding never fails with a
   * KeyError; it fails only on a net that is not well shaped, and succeeds
   * exactly when every net is.
   */
  lemma {:induction false} EncodeSucceeds(block: seq<Net>)
    ensures Encode(block).Ok? <==> forall i :: 0 <= i < |block| ==> WellShaped(block[i])
    ensures Encode(block).Err? ==> !Encode(block).fault.KeyError?
  {
    var wm := WireTable(block);
    BlockAllocated(block);
    ConstraintsFault(block, wm);
    forall i | 0 <= i < |block|
      ensures NetConstraint(block[i], wm).Ok? <==> WellShaped(block[i])
    {
      NetSucceeds(block[i], wm);
    }
    if Encode(block).Err? && Encode(block).fault.KeyError? {
      var i :| 0 <= i < |block| && NetConstraint(block[i], wm) == Err(Encode(block).fault);
      KeyErrorIsMissingWire(block[i], wm);
      assert false;
    }
  }

  /**
   * Every variable of every emitted constraint is the variable the allocation
   * pass made for that name: named after the wire, with its first width.
   */
  lemma EncodeUsesFirstWidths(block: seq<Net>)
    requires Encode(block).Ok?
    ensures forall c :: c in Encode(block).value ==>
      VarsIn(c.lhs, WireTable(block)) && VarsIn(c.rhs, WireTable(block))
    ensures forall k :: 0 <= k < |References(block)| && IsFirst(References(block), k) ==>
      WireTable(block)[References(block)[k].name] == References(block)[k].width
  {
    ConstraintsUseTable(block, WireTable(block));
    forall k | 0 <= k < |References(block)| && IsFirst(References(block), k)
      ensures WireTable(block)[References(block)[k].name] == References(block)[k].width
    {
      DeclaredFirstWins(References(block), k);
    }
  }
}
