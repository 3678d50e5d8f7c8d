/** The portable interpreter: 64-bit machine words in a value table, masks and
    sign bits, and a host that answers calls. */
module IrInterpreter {
  import opened Bits
  import opened IR
  import opened Wrappers

  // ----- The host -----

  datatype Event =
    | RegisterRead(id: nat, ty: ValueType)
    | RegisterWrite(id: nat, ty: ValueType, value: nat)
    | MemoryLoad(address: nat, ty: ValueType, memoryClass: MemoryClass)
    | MemoryStore(address: nat, ty: ValueType, memoryClass: MemoryClass, value: nat)
    | HelperCall(id: nat, ty: ValueType, arguments: seq<nat>)
    | CounterSet(address: nat)

  type Log = seq<Event>

  /** A host may answer a call as it likes, depending on everything it was asked
      before: `reply` stands for any state it keeps. */
  class Host {
    const reply: Log -> Word
    var log: Log

    constructor (reply: Log -> Word)
      ensures this.reply == reply && log == []
    {
      this.reply := reply;
      log := [];
    }

    method Answer(e: Event) returns (w: Word)
      modifies this
      ensures log == old(log) + [e] && w == reply(log)
    {
      log := log + [e];
      w := reply(log);
    }

    method Perform(e: Event)
      modifies this
      ensures log == old(log) + [e]
    {
      log := log + [e];
    }
  }

  // ----- Word arithmetic as the interpreter does it -----

  const WORD := 0x1_0000_0000_0000_0000

  function Mask(ty: ValueType): Word {
    match ty
    case Bool => 0x1
    case I8 => 0xFF
    case I16 => 0xFFFF
    case I32 => 0xFFFF_FFFF
    case I64 => 0xFFFF_FFFF_FFFF_FFFF
    case Void => 0
  }

  function Truncate(value: Word, ty: ValueType): Word {
    AndBound(value, Mask(ty));
    And(value, Mask(ty))
  }

  function Left(value: Word, shift: nat): Word {
    value * Pow2(shift) % WORD
  }

  function Right(value: Word, shift: nat): Word {
    DivShrinks(value, Pow2(shift));
    value / Pow2(shift)
  }

  function ShiftedLeft(value: Word, amount: Word, ty: ValueType): Word {
    var shift := And(amount, 63);
    if Width(ty) == 0 || shift >= Width(ty) then 0
    else Truncate(Left(Truncate(value, ty), shift), ty)
  }

  function ShiftedRight(value: Word, amount: Word, ty: ValueType): Word {
    var shift := And(amount, 63);
    if Width(ty) == 0 || shift >= Width(ty) then 0
    else Right(Truncate(value, ty), shift)
  }

  function ShiftedRightArithmetic(value: Word, amount: Word, ty: ValueType): Word {
    var shift := And(amount, 63);
    if Width(ty) == 0 then 0 else SourceShifted(Truncate(value, ty), shift, ty)
  }

  function SourceShifted(source: Word, shift: nat, ty: ValueType): Word
    requires Width(ty) > 0
  {
    var negative := And(source, Left(1, Width(ty) - 1)) != 0;
    if shift >= Width(ty) then (if negative then Mask(ty) else 0)
    else if shift == 0 then source
    else if negative then SignFilled(source, shift, ty)
    else Truncate(Right(source, shift), ty)
  }

  function SignFilled(source: Word, shift: nat, ty: ValueType): Word
    requires shift <= Width(ty)
  {
    var fill := Xor64(Mask(ty), (Left(1, Width(ty) - shift) - 1) % WORD);
    Truncate(Or64(Right(source, shift), fill), ty)
  }

  function SignedLess(lhs: Word, rhs: Word, ty: ValueType): bool {
    if Width(ty) == 0 then false else
    var sign := Left(1, Width(ty) - 1);
    Xor64(Truncate(lhs, ty), sign) < Xor64(Truncate(rhs, ty), sign)
  }

  function And64(a: Word, b: Word): Word {
    AndBound(a, b);
    And(a, b)
  }

  function Or64(a: Word, b: Word): Word {
    Pow2Word();
    OrBound(a, b, 64);
    Or(a, b)
  }

  function Xor64(a: Word, b: Word): Word {
    Pow2Word();
    XorBound(a, b, 64);
    Xor(a, b)
  }

  function Flag(b: bool): Word {
    if b then 1 else 0
  }

  predicate Binary(opcode: Opcode) {
    opcode in {Add, Subtract, Multiply, BitAnd, BitOr, BitXor, ShiftLeft, ShiftRightLogical, ShiftRightArithmetic,
               CompareEqual, CompareNotEqual, CompareUnsignedLess, CompareSignedLess}
  }

  function BinaryWord(opcode: Opcode, a: Word, b: Word, ty: ValueType, operandTy: ValueType): Word
    requires Binary(opcode)
  {
    match opcode
    case Add => (a + b) % WORD
    case Subtract => (a - b) % WORD
    case Multiply => a * b % WORD
    case BitAnd => And64(a, b)
    case BitOr => Or64(a, b)
    case BitXor => Xor64(a, b)
    case ShiftLeft => ShiftedLeft(a, b, ty)
    case ShiftRightLogical => ShiftedRight(a, b, ty)
    case ShiftRightArithmetic => ShiftedRightArithmetic(a, b, ty)
    case CompareEqual => Flag(a == b)
    case CompareNotEqual => Flag(a != b)
    case CompareUnsignedLess => Flag(a < b)
    case CompareSignedLess => Flag(SignedLess(a, b, operandTy))
  }

  // ----- One operation -----

  datatype Result = Result(branchTaken: bool, exitRequested: bool, cycleCondition: bool, retirementReached: bool)

  /** Reading a value outside the table throws: `None`. */
  function OperandValue(values: seq<Word>, x: Operand): Option<Word> {
    if x.kind == Value then
      var id := x.payload % 0x1_0000_0000;
      if id < |values| then Some(values[id]) else None
    else Some(Truncate(x.payload, x.ty))
  }

  function Arguments(values: seq<Word>, xs: seq<Operand>): Option<seq<Word>> {
    if xs == [] then Some([])
    else
      match (Arguments(values, xs[..|xs| - 1]), OperandValue(values, xs[|xs| - 1]))
      case (Some(ws), Some(w)) => Some(ws + [w])
      case _ => None
  }

  datatype Stepped = Stepped(value: Word, log: Log, result: Result)

  /** What one operation computes, asks of the host and notes in the result;
      `None` when it reads outside the value table. */
  function Step(op: Operation, values: seq<Word>, log: Log, r: Result, reply: Log -> Word): Option<Stepped>
    requires ValidOperandCount(op.opcode, |op.operands|)
  {
    var xs := op.operands;
    if Binary(op.opcode) then
      match (OperandValue(values, xs[0]), OperandValue(values, xs[1]))
      case (Some(a), Some(b)) => Some(Stepped(BinaryWord(op.opcode, a, b, op.resultType, xs[0].ty), log, r))
      case _ => None
    else
      match op.opcode
      case Constant =>
        (match OperandValue(values, xs[0])
         case Some(a) => Some(Stepped(a, log, r))
         case None => None)
      case BitNot =>
        (match OperandValue(values, xs[0])
         case Some(a) => Some(Stepped(MAX_WORD - a, log, r))
         case None => None)
      case Select =>
        (match OperandValue(values, xs[0])
         case Some(c) =>
           (match OperandValue(values, if c != 0 then xs[1] else xs[2])
            case Some(a) => Some(Stepped(a, log, r))
            case None => None)
         case None => None)
      case ReadRegister =>
        var log' := log + [RegisterRead(xs[0].payload % 0x1_0000_0000, op.resultType)];
        Some(Stepped(reply(log'), log', r))
      case WriteRegister =>
        (match OperandValue(values, xs[1])
         case Some(a) => Some(Stepped(0, log + [RegisterWrite(xs[0].payload % 0x1_0000_0000, xs[0].ty, a)], r))
         case None => None)
      case LoadMemory =>
        (match OperandValue(values, xs[0])
         case Some(a) =>
           var log' := log + [MemoryLoad(a, op.resultType, op.memoryClass)];
           Some(Stepped(reply(log'), log', r))
         case None => None)
      case StoreMemory =>
        (match (OperandValue(values, xs[0]), OperandValue(values, xs[1]))
         case (Some(a), Some(v)) => Some(Stepped(0, log + [MemoryStore(a, xs[1].ty, op.memoryClass, v)], r))
         case _ => None)
      case SetProgramCounter =>
        (match OperandValue(values, xs[0])
         case Some(a) => Some(Stepped(0, log + [CounterSet(a)], r))
         case None => None)
      case Branch => Some(Stepped(0, log + [CounterSet(xs[0].payload)], r.(branchTaken := true)))
      case BranchIf =>
        (match OperandValue(values, xs[0])
         case Some(c) =>
           Some(if c != 0 then Stepped(0, log + [CounterSet(xs[1].payload)], r.(branchTaken := true))
                else Stepped(0, log, r))
         case None => None)
      case CallHelper =>
        (match Arguments(values, xs[1..])
         case Some(ws) =>
           var log' := log + [HelperCall(xs[0].payload % 0x1_0000_0000, op.resultType, ws)];
           Some(Stepped(reply(log'), log', r))
         case None => None)
      case Exit => Some(Stepped(0, log, r.(exitRequested := true)))
      case RetireInstruction => Some(Stepped(0, log, r.(retirementReached := true)))
  }

  // ----- One instruction -----

  function Larger(a: nat, b: nat): nat {
    if a > b then a else b
  }

  /** The largest value ID an instruction defines. */
  function MaxValue(ops: seq<Operation>): nat {
    if ops == [] then 0
    else Larger(MaxValue(ops[..|ops| - 1]), match ops[|ops| - 1].result case Some(id) => id case None => 0)
  }

  lemma {:induction false} MaxValueBounds(ops: seq<Operation>, k: nat)
    requires k < |ops| && ops[k].result.Some?
    ensures ops[k].result.value <= MaxValue(ops)
  {
    if k < |ops| - 1 {
      MaxValueBounds(ops[..|ops| - 1], k);
    }
  }

  datatype Machine = Machine(values: seq<Word>, log: Log, result: Result)

  ghost predicate Roomy(values: seq<Word>, ops: seq<Operation>) {
    forall i :: 0 <= i < |ops| && ops[i].result.Some? ==> ops[i].result.value < |values|
  }

  /** One operation together with the table entry it sets. */
  function Advance(op: Operation, m: Machine, reply: Log -> Word): (m': Option<Machine>)
    requires ValidOperandCount(op.opcode, |op.operands|)
    requires op.result.Some? ==> op.result.value < |m.values|
    ensures m'.Some? ==> |m'.value.values| == |m.values|
  {
    match Step(op, m.values, m.log, m.result, reply)
    case None => None
    case Some(s) =>
      match op.result
      case Some(id) => Some(Machine(m.values[id := Truncate(s.value, op.resultType)], s.log, s.result))
      case None => Some(Machine(m.values, s.log, s.result))
  }

  /** The loop of `Execute` from operation `k` on: once an exit is requested
      only retirement still runs, and retirement ends the loop. */
  function Loop(ops: seq<Operation>, k: nat, m: Machine, reply: Log -> Word): Option<Machine>
    requires k <= |ops| && Roomy(m.values, ops)
    requires forall i :: 0 <= i < |ops| ==> ValidOperandCount(ops[i].opcode, |ops[i].operands|)
    decreases |ops| - k
  {
    if k == |ops| then Some(m)
    else if m.result.exitRequested && ops[k].opcode != RetireInstruction then Loop(ops, k + 1, m, reply)
    else
      match Advance(ops[k], m, reply)
      case None => None
      case Some(m') => if m'.result.retirementReached then Some(m') else Loop(ops, k + 1, m', reply)
  }

  /** The unchecked indexing of `operands` is the caller's burden. */
  predicate Indexable(x: Instruction) {
    forall i :: 0 <= i < |x.operations| ==> ValidOperandCount(x.operations[i].opcode, |x.operations[i].operands|)
  }

  function Start(x: Instruction, log: Log): (m: Machine)
    ensures Roomy(m.values, x.operations)
  {
    var n := MaxValue(x.operations) + 1;
    assert forall i :: 0 <= i < |x.operations| && x.operations[i].result.Some? ==> x.operations[i].result.value < n by {
      forall i | 0 <= i < |x.operations| && x.operations[i].result.Some?
        ensures x.operations[i].result.value < n
      {
        MaxValueBounds(x.operations, i);
      }
    }
    Machine(seq(n, _ => 0), log, Result(false, false, false, false))
  }

  /** The whole of `Execute`, started on an empty table of zeros. */
  function Run(x: Instruction, log: Log, reply: Log -> Word): Option<Machine>
    requires Indexable(x)
  {
    match Loop(x.operations, 0, Start(x, log), reply)
    case None => None
    case Some(m) =>
      match x.takenCondition
      case None => Some(m)
      case Some(id) =>
        if id < |m.values| then Some(m.(result := m.result.(cycleCondition := m.values[id] != 0))) else None
  }

  /** The interpreter keeps its tables between instructions; every instruction starts afresh. */
  class Interpreter {
    var values: seq<Word>
    var helperArguments: seq<Word>

    constructor ()
    {
      values, helperArguments := [], [];
    }

    method CollectArguments(xs: seq<Operand>) returns (threw: bool)
      modifies this`helperArguments
      ensures match Arguments(values, xs)
              case Some(ws) => !threw && helperArguments == ws
              case None => threw
    {
      helperArguments := [];
      for i := 0 to |xs|
        invariant Arguments(values, xs[..i]) == Some(helperArguments)
      {
        assert xs[..i + 1][..i] == xs[..i];
        var w := OperandValue(values, xs[i]);
        if w.None? {
          ArgumentsFail(values, xs, i + 1);
          return true;
        }
        helperArguments := helperArguments + [w.value];
      }
      assert xs[..|xs|] == xs;
      threw := false;
    }

    /** Performs the host calls of one operation. */
    method ExecuteOperation(op: Operation, host: Host, r: Result) returns (threw: bool, value: Word, r': Result)
      requires ValidOperandCount(op.opcode, |op.operands|)
      modifies this`helperArguments, host
      ensures match Step(op, values, old(host.log), r, host.reply)
              case Some(s) => !threw && value == s.value && host.log == s.log && r' == s.result
              case None => threw
    {
      var xs := op.operands;
      threw, value, r' := false, 0, r;
      if Binary(op.opcode) {
        var a, b := OperandValue(values, xs[0]), OperandValue(values, xs[1]);
        if a.None? || b.None? { return true, 0, r; }
        return false, BinaryWord(op.opcode, a.value, b.value, op.resultType, xs[0].ty), r;
      }
      match op.opcode {
        case ReadRegister =>
          value := host.Answer(RegisterRead(xs[0].payload % 0x1_0000_0000, op.resultType));
        case LoadMemory =>
          var a := OperandValue(values, xs[0]);
          if a.None? { return true, 0, r; }
          value := host.Answer(MemoryLoad(a.value, op.resultType, op.memoryClass));
        case CallHelper =>
          threw := CollectArguments(xs[1..]);
          if threw { return; }
          value := host.Answer(HelperCall(xs[0].payload % 0x1_0000_0000, op.resultType, helperArguments));
        case Constant =>
          var a := OperandValue(values, xs[0]);
          if a.None? { return true, 0, r; }
          value := a.value;
        case BitNot =>
          var a := OperandValue(values, xs[0]);
          if a.None? { return true, 0, r; }
          value := MAX_WORD - a.value;
        case Select =>
          var c := OperandValue(values, xs[0]);
          if c.None? { return true, 0, r; }
          var a := OperandValue(values, if c.value != 0 then xs[1] else xs[2]);
          if a.None? { return true, 0, r; }
          value := a.value;
        case WriteRegister =>
          var a := OperandValue(values, xs[1]);
          if a.None? { return true, 0, r; }
          host.Perform(RegisterWrite(xs[0].payload % 0x1_0000_0000, xs[0].ty, a.value));
        case StoreMemory =>
          var a, v := OperandValue(values, xs[0]), OperandValue(values, xs[1]);
          if a.None? || v.None? { return true, 0, r; }
          host.Perform(MemoryStore(a.value, xs[1].ty, op.memoryClass, v.value));
        case SetProgramCounter =>
          var a := OperandValue(values, xs[0]);
          if a.None? { return true, 0, r; }
          host.Perform(CounterSet(a.value));
        case Branch =>
          host.Perform(CounterSet(xs[0].payload));
          r' := r.(branchTaken := true);
        case BranchIf =>
          var c := OperandValue(values, xs[0]);
          if c.None? { return true, 0, r; }
          if c.value != 0 {
            host.Perform(CounterSet(xs[1].payload));
            r' := r.(branchTaken := true);
          }
        case Exit =>
          r' := r.(exitRequested := true);
        case RetireInstruction =>
          r' := r.(retirementReached := true);
      }
    }

    /** The scan that sizes the value table, which starts all zero. */
    method Prepare(ops: seq<Operation>)
      modifies this`values
      ensures values == seq(MaxValue(ops) + 1, _ => 0)
    {
      var maxValue := 0;
      for i := 0 to |ops|
        invariant maxValue == MaxValue(ops[..i])
      {
        assert ops[..i + 1][..i] == ops[..i];
        if ops[i].result.Some? { maxValue := Larger(maxValue, ops[i].result.value); }
      }
      assert ops[..|ops|] == ops;
      values := seq(maxValue + 1, _ => 0);
    }

    method ExecuteAll(ops: seq<Operation>, host: Host, ghost start: Machine) returns (threw: bool, result: Result)
      requires forall i :: 0 <= i < |ops| ==> ValidOperandCount(ops[i].opcode, |ops[i].operands|)
      requires Roomy(values, ops)
      requires start == Machine(values, host.log, Result(false, false, false, false))
      modifies this, host
      ensures match Loop(ops, 0, start, host.reply)
              case Some(m) => !threw && m == Machine(values, host.log, result)
              case None => threw
    {
      result := Result(false, false, false, false);
      threw := false;
      var k := 0;
      while k < |ops|
        invariant 0 <= k <= |ops| && |values| == |start.values|
        invariant Loop(ops, k, Machine(values, host.log, result), host.reply) == Loop(ops, 0, start, host.reply)
      {
        if result.exitRequested && ops[k].opcode != RetireInstruction {
          k := k + 1;
          continue;
        }
        ghost var before := Machine(values, host.log, result);
        var value;
        threw, value, result := ExecuteOperation(ops[k], host, result);
        if threw { return; }
        if ops[k].result.Some? {
          values := values[ops[k].result.value := Truncate(value, ops[k].resultType)];
        }
        assert Advance(ops[k], before, host.reply) == Some(Machine(values, host.log, result));
        if result.retirementReached { return; }
        k := k + 1;
      }
    }

    method Execute(x: Instruction, host: Host) returns (threw: bool, result: Result)
      requires Indexable(x)
      modifies this, host
      ensures match Run(x, old(host.log), host.reply)
              case Some(m) => !threw && result == m.result && values == m.values && host.log == m.log
              case None => threw
    {
      Prepare(x.operations);
      threw, result := ExecuteAll(x.operations, host, Start(x, host.log));
      if threw { return; }
      if x.takenCondition.Some? {
        if x.takenCondition.value >= |values| { return true, result; }
        result := result.(cycleCondition := values[x.takenCondition.value] != 0);
      }
    }
  }

  lemma {:induction false} ArgumentsFail(values: seq<Word>, xs: seq<Operand>, n: nat)
    requires n <= |xs| && Arguments(values, xs[..n]).None?
    ensures Arguments(values, xs).None?
    decreases |xs|
  {
    if n < |xs| {
      assert xs[..|xs| - 1][..n] == xs[..n];
      ArgumentsFail(values, xs[..|xs| - 1], n);
    } else {
      assert xs[..n] == xs;
    }
  }
}
