/**
 * The netlist records the encoder consumes: wires, nets and the static
 * parameter a net may carry. They are built by a front end that is not part
 * of this model and are taken here as given values.
 */
module Netlist {

  /** A named signal with its declared bit-width. */
  datatype Wire = Wire(name: string, width: nat)

  /**
   * A net's `op_param`: nothing, an index pair (the first component is the
   * select's start bit, the second its end bit), or an integer literal.
   */
  datatype Param = NoParam | Range(start: nat, end: nat) | Literal(value: int)

  /** One operation node: its op character, input wires, output wires and parameter. */
  datatype Net = Net(op: char, args: seq<Wire>, dests: seq<Wire>, param: Param)

  /** The op characters the generation pass has a branch for. */
  predicate IsRecognised(op: char)
  {
    op in {'w', '&', '|', '^', '~', 'c', 's', 'r', 'x'}
  }

  /**
   * Every wire reference of a block in the order the allocation pass visits
   * them: net by net, each net's args before its dests.
   */
  function References(block: seq<Net>): seq<Wire>
  {
    if block == [] then []
    else
      var last := block[|block| - 1];
      References(block[..|block| - 1]) + last.args + last.dests
  }

  /** The names of the wires in ws. */
  function Names(ws: seq<Wire>): set<string>
  {
    set w | w in ws :: w.name
  }

  /** The nets of a block whose op is recognised, in block order. */
  function RecognisedNets(block: seq<Net>): (r: seq<Net>)
    ensures forall n :: n in r ==> n in block && IsRecognised(n.op)
    ensures forall n :: n in block && IsRecognised(n.op) ==> n in r
  {
    if block == [] then []
    else
      var last := block[|block| - 1];
      RecognisedNets(block[..|block| - 1]) + (if IsRecognised(last.op) then [last] else [])
  }

  /** Appending a net extends the wire references by that net's args and dests. */
  lemma ReferencesSnoc(block: seq<Net>, net: Net)
    ensures References(block + [net]) == References(block) + net.args + net.dests
  {
    assert (block + [net])[..|block|] == block;
  }
}
