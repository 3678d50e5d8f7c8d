/** The portable intermediate representation and what makes a block of it well formed. */
module IR {
  import opened Bits
  import opened Wrappers

  type Word = x: nat | x < 0x1_0000_0000_0000_0000
  type Byte = x: nat | x < 0x100

  const MAX_WORD := 0xFFFF_FFFF_FFFF_FFFF
  const MAX_ID := 0xFFFF_FFFF

  datatype ValueType = Void | Bool | I8 | I16 | I32 | I64

  datatype OperandKind = Value | Immediate | GuestRegister | GuestAddress | BlockTarget | Helper

  datatype Operand = Operand(kind: OperandKind, ty: ValueType, payload: Word)

  datatype Opcode =
    | Constant | ReadRegister | WriteRegister | LoadMemory | StoreMemory
    | Add | Subtract | Multiply | BitAnd | BitOr | BitXor
    | ShiftLeft | ShiftRightLogical | ShiftRightArithmetic | BitNot
    | CompareEqual | CompareNotEqual | CompareUnsignedLess | CompareSignedLess
    | Select | SetProgramCounter | Branch | BranchIf | CallHelper | Exit | RetireInstruction

  datatype MemoryClass = Generic | DirectRam | ReadOnly | Mmio | Cartridge

  datatype Operation = Operation(opcode: Opcode, result: Option<nat>, resultType: ValueType,
                                 operands: seq<Operand>, memoryClass: MemoryClass)

  datatype GuardKind = MappingGeneration | CodeBytes | ExecutionState | HelperAbi

  datatype Guard = Guard(kind: GuardKind, subject: Word, expected: Word, mask: Word, bytes: seq<Byte>)

  datatype Instruction = Instruction(address: Word, length: Byte, cyclesNotTaken: nat, cyclesTaken: nat,
                                     takenCondition: Option<nat>, controlFlow: bool, operations: seq<Operation>)

  datatype Block = Block(guestStart: Word, guestEnd: Word, mappingGeneration: Word,
                         guards: seq<Guard>, instructions: seq<Instruction>)

  function Width(ty: ValueType): nat {
    match ty
    case Void => 0
    case Bool => 1
    case I8 => 8
    case I16 => 16
    case I32 => 32
    case I64 => 64
  }

  predicate IsInteger(ty: ValueType) {
    ty in {I8, I16, I32, I64}
  }

  predicate RequiresResult(opcode: Opcode) {
    opcode in {Constant, ReadRegister, LoadMemory, Add, Subtract, Multiply, BitAnd, BitOr, BitXor,
               ShiftLeft, ShiftRightLogical, ShiftRightArithmetic, BitNot,
               CompareEqual, CompareNotEqual, CompareUnsignedLess, CompareSignedLess, Select}
  }

  predicate ForbidsResult(opcode: Opcode) {
    opcode != CallHelper && !RequiresResult(opcode)
  }

  predicate ValidOperandCount(opcode: Opcode, count: nat) {
    match opcode
    case Constant | ReadRegister | LoadMemory | BitNot | SetProgramCounter | Branch => count == 1
    case Select => count == 3
    case CallHelper => count >= 1
    case Exit | RetireInstruction => count == 0
    case _ => count == 2
  }

  predicate ValueLike(x: Operand) {
    x.kind == Value || x.kind == Immediate
  }

  predicate AddressLike(x: Operand) {
    (x.kind == GuestAddress || x.kind == Value) && IsInteger(x.ty)
  }

  /** The kinds and types each opcode accepts. */
  predicate SemanticTypes(op: Operation)
    requires ValidOperandCount(op.opcode, |op.operands|)
  {
    var xs, ty := op.operands, op.resultType;
    match op.opcode
    case Constant => xs[0].kind == Immediate && xs[0].ty == ty
    case ReadRegister => xs[0].kind == GuestRegister && xs[0].ty == ty
    case WriteRegister => xs[0].kind == GuestRegister && ValueLike(xs[1]) && xs[0].ty == xs[1].ty
    case LoadMemory => AddressLike(xs[0]) && IsInteger(ty)
    case StoreMemory => AddressLike(xs[0]) && ValueLike(xs[1]) && IsInteger(xs[1].ty)
    case Add | Subtract | Multiply | BitAnd | BitOr | BitXor
    | ShiftLeft | ShiftRightLogical | ShiftRightArithmetic =>
      IsInteger(ty) && ValueLike(xs[0]) && ValueLike(xs[1]) && xs[0].ty == ty && xs[1].ty == ty
    case BitNot => IsInteger(ty) && ValueLike(xs[0]) && xs[0].ty == ty
    case CompareEqual | CompareNotEqual | CompareUnsignedLess | CompareSignedLess =>
      ty == Bool && ValueLike(xs[0]) && ValueLike(xs[1]) && IsInteger(xs[0].ty) && xs[0].ty == xs[1].ty
    case Select =>
      && xs[0].kind == Value && xs[0].ty == Bool
      && ValueLike(xs[1]) && ValueLike(xs[2]) && xs[1].ty == ty && xs[2].ty == ty
    case SetProgramCounter => ValueLike(xs[0]) && IsInteger(xs[0].ty)
    case Branch => xs[0].kind == BlockTarget
    case BranchIf => xs[0].kind == Value && xs[0].ty == Bool && xs[1].kind == BlockTarget
    case CallHelper => xs[0].kind == Helper
    case Exit => true
    case RetireInstruction => true
  }

  // ----- The same tables, opcode by opcode -----

  /** What each operand position may hold; a helper may take more. */
  function Slots(opcode: Opcode): seq<set<OperandKind>> {
    match opcode
    case Constant => [{Immediate}]
    case ReadRegister => [{GuestRegister}]
    case WriteRegister => [{GuestRegister}, {Value, Immediate}]
    case LoadMemory => [{GuestAddress, Value}]
    case StoreMemory => [{GuestAddress, Value}, {Value, Immediate}]
    case BitNot | SetProgramCounter => [{Value, Immediate}]
    case Select => [{Value}, {Value, Immediate}, {Value, Immediate}]
    case Branch => [{BlockTarget}]
    case BranchIf => [{Value}, {BlockTarget}]
    case CallHelper => [{Helper}]
    case Exit | RetireInstruction => []
    case _ => [{Value, Immediate}, {Value, Immediate}]
  }

  /** Positions of the result's type, of any integer type, and of truth values. */
  function LikeResult(opcode: Opcode): set<nat> {
    match opcode
    case WriteRegister | LoadMemory | StoreMemory | SetProgramCounter => {}
    case CompareEqual | CompareNotEqual | CompareUnsignedLess | CompareSignedLess => {}
    case Branch | BranchIf | CallHelper | Exit | RetireInstruction => {}
    case Constant | ReadRegister | BitNot => {0}
    case Select => {1, 2}
    case _ => {0, 1}
  }

  function Integers(opcode: Opcode): set<nat> {
    match opcode
    case Constant | ReadRegister | WriteRegister | Select | Branch | BranchIf | CallHelper | Exit | RetireInstruction => {}
    case LoadMemory | BitNot | SetProgramCounter => {0}
    case _ => {0, 1}
  }

  function Truths(opcode: Opcode): set<nat> {
    if opcode in {Select, BranchIf} then {0} else {}
  }

  /** Opcodes that yield a truth value, an integer, or nothing. */
  predicate Compares(opcode: Opcode) {
    opcode in {CompareEqual, CompareNotEqual, CompareUnsignedLess, CompareSignedLess}
  }

  predicate Calculates(opcode: Opcode) {
    opcode in {Add, Subtract, Multiply, BitAnd, BitOr, BitXor, ShiftLeft, ShiftRightLogical, ShiftRightArithmetic, BitNot}
  }

  predicate Silent(opcode: Opcode) {
    opcode in {WriteRegister, StoreMemory, SetProgramCounter, Branch, BranchIf, Exit, RetireInstruction}
  }

  /** Operand counts, operand kinds, operand types and results are those of the tables. */
  lemma TypedByTable(op: Operation)
    ensures ValidOperandCount(op.opcode, |op.operands|) <==>
              |op.operands| == |Slots(op.opcode)| || (op.opcode == CallHelper && |op.operands| > 1)
    ensures ForbidsResult(op.opcode) <==> Silent(op.opcode)
    ensures RequiresResult(op.opcode) <==> !Silent(op.opcode) && op.opcode != CallHelper
    ensures ValidOperandCount(op.opcode, |op.operands|) ==>
              (SemanticTypes(op) <==>
                 && (forall i: nat :: i < |Slots(op.opcode)| ==> op.operands[i].kind in Slots(op.opcode)[i])
                 && (forall i: nat :: i in LikeResult(op.opcode) ==> op.operands[i].ty == op.resultType)
                 && (forall i: nat :: i in Integers(op.opcode) ==> IsInteger(op.operands[i].ty))
                 && (forall i: nat :: i in Truths(op.opcode) ==> op.operands[i].ty == Bool)
                 && (Compares(op.opcode) ==> op.resultType == Bool)
                 && (Calculates(op.opcode) || op.opcode == LoadMemory ==> IsInteger(op.resultType))
                 && (Compares(op.opcode) || op.opcode == WriteRegister ==> op.operands[0].ty == op.operands[1].ty))
  {
  }

  // ----- Well-formed blocks, said of positions rather than of a scan -----

  /** Operation `j` defines value `id` with type `ty`. */
  predicate Defines(ops: seq<Operation>, j: nat, id: nat, ty: ValueType)
    requires j < |ops|
  {
    ops[j].result == Some(id) && ops[j].resultType == ty
  }

  /** `id` has type `ty` by one of the first `n` operations. */
  ghost predicate DefinedBefore(ops: seq<Operation>, n: nat, id: nat, ty: ValueType)
    requires n <= |ops|
  {
    exists j :: 0 <= j < n && Defines(ops, j, id, ty)
  }

  /** Results are present where required, non-zero, typed and never redefined. */
  predicate ResultOk(ops: seq<Operation>, k: nat)
    requires k < |ops|
  {
    var op := ops[k];
    && (RequiresResult(op.opcode) ==> op.result.Some?)
    && (ForbidsResult(op.opcode) ==> op.result.None?)
    && match op.result
       case None => op.resultType == Void
       case Some(id) => id != 0 && op.resultType != Void && forall j :: 0 <= j < k ==> ops[j].result != Some(id)
  }

  /** An operand may read a value defined by an earlier operation, or by this
      one: the result is entered before the operands are looked at. */
  ghost predicate OperandOk(ops: seq<Operation>, k: nat, x: Operand)
    requires k < |ops|
  {
    && (x.kind in {Value, GuestRegister, Helper} ==> x.payload <= MAX_ID)
    && (x.kind == Value ==> DefinedBefore(ops, k + 1, x.payload, x.ty))
  }

  ghost predicate OperationOk(ops: seq<Operation>, k: nat)
    requires k < |ops|
  {
    var op := ops[k];
    && ValidOperandCount(op.opcode, |op.operands|)
    && ResultOk(ops, k)
    && (forall i :: 0 <= i < |op.operands| ==> OperandOk(ops, k, op.operands[i]))
    && SemanticTypes(op)
    && (op.opcode != LoadMemory && op.opcode != StoreMemory ==> op.memoryClass == Generic)
    && (op.opcode == RetireInstruction ==> k + 1 == |ops|)
    && (op.opcode == Exit ==> k + 2 == |ops|)
  }

  ghost predicate InstructionOk(x: Instruction) {
    && x.length > 0 && x.cyclesNotTaken > 0 && x.cyclesTaken > 0
    && x.operations != [] && x.operations[|x.operations| - 1].opcode == RetireInstruction
    && (forall k :: 0 <= k < |x.operations| ==> OperationOk(x.operations, k))
    && match x.takenCondition
       case Some(id) => DefinedBefore(x.operations, |x.operations|, id, Bool)
       case None => x.cyclesNotTaken == x.cyclesTaken
  }

  /** Instructions follow one another without a gap, and only the last may transfer control. */
  ghost predicate Contiguous(xs: seq<Instruction>) {
    && (forall i :: 0 <= i < |xs| - 1 ==> xs[i + 1].address == xs[i].address + xs[i].length && !xs[i].controlFlow)
    && (forall i :: 0 <= i < |xs| ==> xs[i].address + xs[i].length <= MAX_WORD)
  }

  predicate GuardOk(guard: Guard) {
    if guard.kind == CodeBytes
    then guard.bytes != [] && guard.subject + |guard.bytes| - 1 <= MAX_WORD
    else guard.bytes == []
  }

  ghost predicate GuardsOk(guards: seq<Guard>) {
    && (forall i :: 0 <= i < |guards| ==> GuardOk(guards[i]))
    && (forall i, j :: 0 <= i < j < |guards| ==> guards[i] != guards[j])
  }

  ghost predicate WellFormed(b: Block) {
    && b.instructions != []
    && (forall i :: 0 <= i < |b.instructions| ==> InstructionOk(b.instructions[i]))
    && Contiguous(b.instructions)
    && b.guestStart == b.instructions[0].address
    && (var last := b.instructions[|b.instructions| - 1]; b.guestEnd == last.address + last.length - 1)
    && GuardsOk(b.guards)
  }
}
