# net_to_smt — the netlist-to-SMT encoder, modelled in Dafny

`net_to_smt` (hw/base/circuit.py) turns a block of nets into a list of equality constraints over bit-vector variables. A net is one operation node: an op character, its input wires (`args`), its output wires (`dests`) and an optional `op_param`. A solver can then check the constraints. The function works in two passes.

- **Allocation pass** (lines 19-26). Nested loops walk every net's args, then its dests. Each one inserts a wire's name into `wire_map` with a variable of that wire's width, but only when the name is not there yet. The first width seen for a name therefore wins.
- **Generation pass** (lines 28-75). A loop over the nets dispatches on the op character: wire-copy `w`, AND `&`, OR `|`, XOR `^`, NOT `~`, concat `c`, select `s`, register `r`, constant `x`. Each recognised op appends one equality. Any other op character falls through and adds nothing.

The model follows that shape:

| module | file | what it holds |
|---|---|---|
| `Netlist` | netlist.dfy | `Wire`, `Net`, `Param`, and the order in which the allocation pass visits wire references (`References`) |
| `Allocation` | allocation.dfy | `AllocateWires`, a method with the source's nested loops, proved equal to the table `Declared(References(block))` |
| `Smt` | smt.dfy | the constraint language used in place of z3 terms (`Expr`, `Constraint`) and its denotation over unsigned naturals |
| `Generation` | generation.dfy | `NetConstraint`, one net's branch; `GenerateConstraints`, the append loop, proved equal to the fold `Constraints` |
| `Encoder` | encoder.dfy | `NetToSmt`, both passes in sequence, specified by `Encode` |
| `Semantics` | semantics.dfy | what each emitted equality forces on the destination wire's value |
| `Scenarios` | scenarios.dfy | concrete blocks, the constraints `Encode` yields for them, and what those constraints force |
| `Bits` | bits.dfy | bitwise AND/OR/XOR/NOT on naturals, giving the logic ops their bitwise reading |

Exceptions that the source would raise are results here: `Result<T> = Ok(T) | Err(Fault)`.
- `IndexError`: `args[0]` or `dests[0]` of an empty list.
- `KeyError(name)`: a `wire_map` lookup of a missing name.
- `ParamError`: an `op_param` that the op cannot use. For a select, that is anything but an index pair. For a constant, it is an `op_param` that z3 cannot coerce to a bit-vector; the model's only such parameter is an index pair.

Lookups happen in the source's order. `w` reads `args[0]` before `dests[0]`; every other op reads `dests[0]` first. So when several lookups would fail, the fault is the one the source raises first.

`wire_map` maps each name to the width of its variable. The variable itself is `Var(name, width)`, which is what `z3.BitVec(name, width)` denotes.

A constant net compares `dests[0]`'s variable with a plain integer. z3 reads that integer at the variable's width, so the model's `Const` carries the destination's width and denotes `value mod 2^width`. When `op_param` is `None`, z3's `==` returns the Python value `False` without raising, and the source appends that. The model appends `FalseConstraint()`, an equality no assignment satisfies.

One might expect every net to contribute a constraint. The code emits nothing for an op outside the nine, and the model follows the code (`UnrecognisedSkipped`, `ConstraintsInOrder`).

## Model

| member | source | states |
|---|---|---|
| Allocation.AllocateWires | hw/base/circuit.py:17-26 | the table the nested loops build is `Declared(References(block))`: every name referenced by an arg or a dest, mapped to the width of its first reference |
| Allocation.DeclaredSnoc | hw/base/circuit.py:22-26 | one loop step: a name already in the table leaves it unchanged; a new name is added with that wire's width |
| Allocation.DeclaredKeys | hw/base/circuit.py:20-26 | the table's keys are exactly the referenced names, so each distinct name has exactly one entry |
| Allocation.DeclaredCoversBlock | hw/base/circuit.py:20-26 | every arg and every dest of every net of the block has an entry in the table built for that block |
| Allocation.DeclaredFirstWins | hw/base/circuit.py:22-23 | the entry for a name is the width of its first reference, whatever widths later references carry |
| Allocation.DeclaredStable | hw/base/circuit.py:22-26 | visiting more references never changes an existing entry; it only adds new names |
| Generation.GenerateConstraints | hw/base/circuit.py:28-77 | the append loop over the nets returns `Constraints(block, wm)`: the constraints in net order, or the first fault raised |
| Generation.PrefixFault | hw/base/circuit.py:29-75 | a fault raised on a prefix of the block is the outcome of the whole pass; later nets are never reached |
| Generation.VariablesFound | hw/base/circuit.py:37 | when every name is in the table, the list comprehension yields one variable per wire, in order, with the table's width |
| Generation.VariablesNeedTable | hw/base/circuit.py:37 | the list comprehension succeeds only when every wire's name is in the table |
| Generation.VariablesKeyError | hw/base/circuit.py:37 | a KeyError from the list comprehension names a wire of that list that is missing from the table |
| Generation.NetSucceeds | hw/base/circuit.py:30-75 | for an allocated net: no fault exactly when the net is well shaped (its `[0]` subscripts exist and `op_param` has the right shape); then a constraint exactly when the op is one of the nine |
| Generation.UnrecognisedSkipped | hw/base/circuit.py:29-75 | a net whose op is not one of the nine yields no constraint and no fault, whatever its wires and parameter |
| Generation.RecognisedEmits | hw/base/circuit.py:30-75 | a recognised op that raises no fault yields exactly one constraint |
| Generation.KeyErrorIsMissingWire | hw/base/circuit.py:31-73 | a KeyError from one net names a wire that the net references and that has no table entry |
| Generation.RegisterIsSwappedCopy | hw/base/circuit.py:30-33 | a register net and a wire-copy net over the same wires fault together; otherwise they emit the same equality with its sides swapped (the register branch is lines 67-70) |
| Generation.ConstraintsInOrder | hw/base/circuit.py:29-75 | on success, the output has one constraint per recognised net, and the k-th constraint is the k-th recognised net's equality |
| Generation.EveryNetEmits | hw/base/circuit.py:29-75 | if net k yields constraint k for every k, the pass returns exactly those constraints, in order |
| Generation.RecognisedNetsEmit | hw/base/circuit.py:29-75 | the converse of `ConstraintsInOrder`: if the k-th recognised net yields constraint k for every k, the pass returns exactly those constraints, whatever unrecognised nets lie between them |
| Generation.ConstraintsFault | hw/base/circuit.py:29-75 | the pass succeeds exactly when every net does; otherwise its fault is that of the first net that raises one |
| Generation.OnlyRecognisedMatter | hw/base/circuit.py:29-75 | removing the nets with unrecognised ops does not change the outcome |
| Generation.ConstraintsUseTable | hw/base/circuit.py:29-75 | every variable in every emitted constraint is a table entry, with the table's width |
| Generation.NetUsesTable | hw/base/circuit.py:31-73 | every variable in one net's constraint is a table entry, with the table's width |
| Encoder.NetToSmt | hw/base/circuit.py:3-77 | allocation followed by generation over the same block returns `Encode(block)` |
| Encoder.BlockAllocated | hw/base/circuit.py:19-29 | after the allocation pass, every wire that any net references is allocated before generation reads it |
| Encoder.EncodeSucceeds | hw/base/circuit.py:3-77 | `net_to_smt` never raises KeyError; it succeeds exactly when every net is well shaped |
| Encoder.EncodeUsesFirstWidths | hw/base/circuit.py:19-75 | every variable in the output is the allocated one for its name; a name's width is the width of its first reference |
| Smt.ConcatSplits | hw/base/circuit.py:58 | a concatenation splits back into its first operand (the top bits) and the concatenation of the rest (the low bits); its width is the sum of the operands' widths |
| Smt.ExtractValue | hw/base/circuit.py:65 | `Extract(hi, lo, a)` with lo <= hi denotes a divided by 2^lo and reduced modulo 2^(hi - lo + 1) |
| Smt.FlipHolds | hw/base/circuit.py:33 | an equality and its swapped form hold under the same assignments |
| Semantics.CopyMeaning | hw/base/circuit.py:30-33 | a wire-copy or register constraint holds exactly when dest and arg0 carry the same value (the register branch is lines 67-70) |
| Semantics.AndMeaning | hw/base/circuit.py:35-38 | under the constraint, bit i of dest is set exactly when bit i of every arg is set |
| Semantics.OrMeaning | hw/base/circuit.py:40-43 | under the constraint, bit i of dest is set exactly when bit i of some arg is set |
| Semantics.XorMeaning | hw/base/circuit.py:45-48 | under the constraint, bit i of dest is the parity of bit i across the args |
| Semantics.NotMeaning | hw/base/circuit.py:50-53 | under the constraint, bit i of dest is the flipped bit i of arg0 within arg0's width, and 0 above it |
| Semantics.SelectMeaning | hw/base/circuit.py:60-65 | start is `op_param[0]` and end is `op_param[1]`; the selected value is end - start + 1 bits wide; under the constraint, dest's bits 0..end-start are arg0's bits start..end |
| Semantics.ConcatMeaning | hw/base/circuit.py:55-58 | the concatenation is as wide as the args' table widths summed; under the constraint, the first arg is dest's most-significant part |
| Semantics.ConstMeaning | hw/base/circuit.py:72-75 | a constant net emits a constraint unless `op_param` is an index pair; it holds exactly when `op_param` is an integer and dest's value is that integer as an unsigned number of dest's width, so with `op_param` `None` it holds for no assignment |
| Scenarios.TableOfThree | hw/base/circuit.py:19-26 | a block that references three distinct names gets a table with exactly those three entries, each at its width |
| Scenarios.TableOfTwo | hw/base/circuit.py:19-26 | a block that references two distinct names gets a table with exactly those two entries, each at its width |
| Scenarios.AndEncode | hw/base/circuit.py:35-38 | the block AND(a[1], b[1]) -> c[1] encodes to the single constraint `c == And(a, b)` |
| Scenarios.AndScenario | hw/base/circuit.py:35-38 | under that constraint, a = b = 1 forces c = 1, and a = 1, b = 0 forces c = 0 |
| Scenarios.ConcatEncode | hw/base/circuit.py:55-58 | the block concat(a[4], b[4]) -> c[8] encodes to the single constraint `c == Concat(a, b)` |
| Scenarios.ConcatScenario | hw/base/circuit.py:55-58 | with a = 0xA and b = 0x5, that constraint holds exactly when c reads 0xA5 (a is the high nibble) |
| Scenarios.SelectEncode | hw/base/circuit.py:60-65 | the block select(a[8], start 2, end 5) -> c[4] encodes to the single constraint `c == Extract(5, 2, a)` |
| Scenarios.SelectScenario | hw/base/circuit.py:60-65 | with a = 0b1011_0100, that constraint holds exactly when c reads 0b1101 |
| Scenarios.ConstScenario | hw/base/circuit.py:72-75 | const 7 -> c[4] encodes to `c == 7` at width 4, which holds exactly when c reads 7 |
| Scenarios.CopyEncode | hw/base/circuit.py:67-70 | register(a[1]) -> c[1] encodes to `c == a`; the wire copy over the same wires encodes to `a == c` (lines 30-33) |
| Scenarios.RegisterScenario | hw/base/circuit.py:67-70 | the register block and the wire-copy block are satisfied by the same assignments |
| Scenarios.DeMorganGenerate | hw/base/circuit.py:29-75 | for `~(~a & ~b) -> y1` beside `OR(a, b) -> y2`, the generation pass yields the five expected equalities in net order, against any table that gives the wires width w |
| Scenarios.DeMorganEncode | hw/base/circuit.py:3-77 | `net_to_smt` on that five-net block returns those five equalities |
| Scenarios.DeMorganScenario | hw/base/circuit.py:35-53 | every assignment that satisfies that block's constraints gives y1 and y2 equal values, so constraining them to differ has no solution |

## Left out

- The z3 library is not modelled: `z3.BitVec`, term construction and satisfiability checking. The `Smt` datatype and its denotation stand in for z3 terms. The scenarios state what the constraints force under that denotation, not what a solver answers.
- z3's `And`, `Or`, `Xor` and `Not` are Boolean connectives, and z3 rejects bit-vector operands for them. The model gives these four ops the bitwise reading the op labels intend. It makes no claim that z3 accepts the terms built by lines 38, 43, 48 and 53.
- z3's arity rules are not modelled. For example, `Xor` takes exactly two operands and `Concat` at least two. The model accepts any number of operands, and an empty `And`, `Or`, `Xor` or `Concat` denotes 0.
- NetSucceeds, EncodeSucceeds: z3's own checks when building a term are not modelled, so these lemmas can report success where z3 would raise. The unmodelled checks are: `Extract` with end < start, `Extract` with end at or past the operand's width, `BitVec` with width 0, and sort mismatches between the two sides of `==`. The model builds the term regardless. An `Extract` with end < start is 0 bits wide and denotes 0; bits past the operand's width read as 0.
- `op_param` values other than `None`, an integer or an index pair are not representable. Such values include strings and Python booleans. `Param` has only those three shapes.
- Operand widths are not checked, as in the source. The model states no width agreement between the two sides of an equality.
- Negative `op_param` indices for a select are not representable: `Range` holds naturals. An `op_param` tuple with fewer than two entries is represented as any non-`Range` parameter, which gives `ParamError` instead of the source's IndexError.
- Construction of `Net` and `Wire` objects (the front end) is not part of this model. Nets are given values, and `op` is a single character.
- Generation never modifies `wire_map`. The model passes the table to the generation pass as a value, so this holds by construction and is not proved as a separate property.
