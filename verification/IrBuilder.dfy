/** The block builder: it numbers values itself, retires every instruction once,
    and hands out nothing that the validator does not accept. */
module IrBuilder {
  import opened IR
  import opened Bits
  import IrValidator
  import opened Wrappers

  const RETIRE: Operation := Operation(RetireInstruction, None, Void, [], Generic)

  /** How many of the operations define a value. */
  function Results(ops: seq<Operation>): nat {
    if ops == [] then 0 else Results(ops[..|ops| - 1]) + if ops[|ops| - 1].result.Some? then 1 else 0
  }

  /** Values are numbered one, two, three in the order of their operations. */
  ghost predicate Numbered(ops: seq<Operation>) {
    forall k: nat :: k < |ops| && ops[k].result.Some? ==> ops[k].result == Some(1 + Results(ops[..k]))
  }

  lemma {:induction false} ResultsGrow(ops: seq<Operation>, j: nat, k: nat)
    requires j <= k <= |ops|
    ensures Results(ops[..j]) <= Results(ops[..k])
    ensures j < k && ops[j].result.Some? ==> Results(ops[..j]) < Results(ops[..k])
    decreases k
  {
    if j < k {
      assert ops[..k][..k - 1] == ops[..k - 1];
      ResultsGrow(ops, j, k - 1);
    }
  }

  /** Numbered results are never zero and never defined twice, so no builder use
      makes the validator reject a result for its number. */
  lemma NumbersAreFresh(ops: seq<Operation>, k: nat)
    requires Numbered(ops) && k < |ops| && ops[k].result.Some?
    ensures ops[k].result.value != 0
    ensures forall j: nat :: j < k ==> ops[j].result != ops[k].result
  {
    forall j: nat | j < k ensures ops[j].result != ops[k].result {
      ResultsGrow(ops, j, k);
    }
  }

  lemma NumberedAppend(ops: seq<Operation>, op: Operation)
    requires Numbered(ops) && (op.result.Some? ==> op.result.value == 1 + Results(ops))
    ensures Numbered(ops + [op])
    ensures Results(ops + [op]) == Results(ops) + if op.result.Some? then 1 else 0
  {
    var longer := ops + [op];
    assert longer[..|ops|] == ops;
    forall k: nat | k < |longer| && longer[k].result.Some?
      ensures longer[k].result == Some(1 + Results(longer[..k]))
    {
      if k < |ops| { assert longer[..k] == ops[..k]; }
    }
  }

  /** A finished instruction: numbered, and its last operation retires it. */
  ghost predicate Closed(x: Instruction) {
    Numbered(x.operations) && x.operations != [] && x.operations[|x.operations| - 1] == RETIRE
  }

  /** The block a builder holds, with the end the last instruction gives it. */
  function Ended(b: Block): Block {
    if b.instructions == [] then b
    else
      var last := b.instructions[|b.instructions| - 1];
      b.(guestEnd := (last.address + last.length - 1) % (MAX_WORD + 1))
  }

  ghost predicate WellFormedButForEnd(b: Block) {
    && b.instructions != []
    && (forall i :: 0 <= i < |b.instructions| ==> InstructionOk(b.instructions[i]))
    && Contiguous(b.instructions)
    && b.guestStart == b.instructions[0].address
    && GuardsOk(b.guards)
  }

  /** The end a builder computes, wrapping, is never why its block is refused. */
  lemma EndedFits(b: Block)
    ensures WellFormed(Ended(b)) <==> WellFormedButForEnd(b)
  {
    if b.instructions != [] && Contiguous(b.instructions) {
      var last := b.instructions[|b.instructions| - 1];
      if InstructionOk(last) {
        DivModUnique(last.address + last.length - 1, MAX_WORD + 1, 0, last.address + last.length - 1);
      }
    }
  }

  /** `b` with one more operation in its last instruction, and nothing else changed. */
  function Extended(b: Block, op: Operation): Block
    requires b.instructions != []
  {
    var n := |b.instructions| - 1;
    b.(instructions := b.instructions[n := b.instructions[n].(operations := b.instructions[n].operations + [op])])
  }

  class BlockBuilder {
    var block: Block
    var open: bool
    var nextValueId: nat

    ghost predicate Valid()
      reads this
    {
      var n := |block.instructions|;
      && (open ==> n > 0)
      && (forall i :: 0 <= i < (if open then n - 1 else n) ==> Closed(block.instructions[i]))
      && (open ==> Numbered(block.instructions[n - 1].operations) && nextValueId == 1 + Results(block.instructions[n - 1].operations))
      && (!open ==> nextValueId == 1)
    }

    constructor (guestStart: Word, mappingGeneration: Word)
      ensures Valid() && !open && block == Block(guestStart, 0, mappingGeneration, [], [])
    {
      block := Block(guestStart, 0, mappingGeneration, [], []);
      open, nextValueId := false, 1;
    }

    /** Refused inside an instruction, like starting or finishing there. */
    method AddGuard(guard: Guard) returns (ok: bool)
      requires Valid()
      modifies this
      ensures Valid() && open == old(open) && ok == !open
      ensures block == if ok then old(block).(guards := old(block).guards + [guard]) else old(block)
    {
      if open { return false; }
      block := block.(guards := block.guards + [guard]);
      ok := true;
    }

    method BeginInstruction(address: Word, length: Byte, cyclesNotTaken: nat, cyclesTaken: nat, takenCondition: Option<nat>, controlFlow: bool)
        returns (ok: bool)
      requires Valid()
      modifies this
      ensures Valid() && ok == !old(open) && open
      ensures !ok ==> block == old(block)
      ensures ok ==> block == old(block).(instructions := old(block).instructions
                       + [Instruction(address, length, cyclesNotTaken, cyclesTaken, takenCondition, controlFlow, [])])
    {
      if open { return false; }
      var x := Instruction(address, length, cyclesNotTaken, cyclesTaken, takenCondition, controlFlow, []);
      block := block.(instructions := block.instructions + [x]);
      open := true;
      ok := true;
    }

    method Append(op: Operation)
      requires Valid() && open && (op.result.Some? ==> op.result.value == nextValueId)
      modifies this`block
      ensures block == Extended(old(block), op)
      ensures var ops := block.instructions[|block.instructions| - 1].operations;
              Numbered(ops) && 1 + Results(ops) == nextValueId + if op.result.Some? then 1 else 0
    {
      var n := |block.instructions|;
      var current := block.instructions[n - 1];
      NumberedAppend(current.operations, op);
      block := block.(instructions := block.instructions[n - 1 := current.(operations := current.operations + [op])]);
    }

    /** Emits an operation with a fresh value and returns its number. */
    method EmitValue(opcode: Opcode, ty: ValueType, operands: seq<Operand>, memoryClass: MemoryClass) returns (id: Option<nat>)
      requires Valid()
      modifies this
      ensures Valid() && open == old(open) && (id.Some? <==> open)
      ensures id.None? ==> block == old(block)
      ensures id.Some? ==> block == Extended(old(block), Operation(opcode, id, ty, operands, memoryClass))
    {
      if !open { return None; }
      id := Some(nextValueId);
      Append(Operation(opcode, id, ty, operands, memoryClass));
      nextValueId := nextValueId + 1;
    }

    method Emit(opcode: Opcode, operands: seq<Operand>, memoryClass: MemoryClass) returns (ok: bool)
      requires Valid()
      modifies this
      ensures Valid() && ok == open == old(open)
      ensures !ok ==> block == old(block)
      ensures ok ==> block == Extended(old(block), Operation(opcode, None, Void, operands, memoryClass))
    {
      if !open { return false; }
      Append(Operation(opcode, None, Void, operands, memoryClass));
      ok := true;
    }

    /** Retires the open instruction and starts numbering afresh. */
    method EndInstruction() returns (ok: bool)
      requires Valid()
      modifies this
      ensures Valid() && ok == old(open) && !open
      ensures !ok ==> block == old(block)
      ensures ok ==> block == Extended(old(block), RETIRE) && Closed(block.instructions[|block.instructions| - 1])
    {
      if !open { return false; }
      Append(RETIRE);
      open, nextValueId := false, 1;
      ok := true;
    }

    /** What comes out is exactly what was built, well formed, and ends where its
        last instruction ends; anything else is refused. */
    method Finish() returns (finished: Option<Block>)
      requires Valid()
      modifies this`block
      ensures finished.Some? <==> !open && WellFormedButForEnd(old(block))
      ensures finished.Some? ==> finished.value == Ended(old(block)) && WellFormed(finished.value)
      ensures finished.Some? ==> forall i :: 0 <= i < |finished.value.instructions| ==> Closed(finished.value.instructions[i])
    {
      if open { return None; }
      if block.instructions != [] {
        var last := block.instructions[|block.instructions| - 1];
        block := block.(guestEnd := (last.address + last.length - 1) % (MAX_WORD + 1));
      }
      var verdict := IrValidator.Validate(block);
      EndedFits(old(block));
      finished := if verdict.Valid? then Some(block) else None;
    }
  }

  // ----- What a builder can get wrong -----

  /** Every result a builder emits passes the validator's result checks as soon as
      its opcode may have one and its type is not void. */
  lemma EmittedResultsPass(ops: seq<Operation>, k: nat)
    requires Numbered(ops) && k < |ops|
    ensures ResultOk(ops, k) <==>
              var op := ops[k];
              && (RequiresResult(op.opcode) ==> op.result.Some?) && (ForbidsResult(op.opcode) ==> op.result.None?)
              && (op.result.Some? <==> op.resultType != Void)
  {
    if ops[k].result.Some? { NumbersAreFresh(ops, k); }
  }
}
