/** A typed, straight-line meaning for well-formed instructions, in ordinary
    integer arithmetic, and the proof that the interpreter computes it. */
module IrSemantics {
  import opened Bits
  import opened IR
  import opened IrInterpreter
  import opened IrArithmetic
  import opened Wrappers

  // ----- The meaning -----

  type Env = map<nat, nat>

  /** A value nobody has defined yet reads as zero. */
  function Lookup(env: Env, id: nat): nat {
    if id in env then env[id] else 0
  }

  function Arg(env: Env, x: Operand): nat {
    if x.kind == Value then Lookup(env, x.payload) else Cut(x.payload, Width(x.ty))
  }

  function Args(env: Env, xs: seq<Operand>): seq<nat> {
    seq(|xs|, i requires 0 <= i < |xs| => Arg(env, xs[i]))
  }

  datatype Effect = Effect(value: nat, log: Log, taken: bool)

  /** What one operation means: a value, host calls, and whether it branches. */
  function Denote(op: Operation, env: Env, log: Log, taken: bool, reply: Log -> Word): Effect
    requires ValidOperandCount(op.opcode, |op.operands|)
  {
    var xs := op.operands;
    if Binary(op.opcode) then
      Effect(Meaning(op.opcode, Arg(env, xs[0]), Arg(env, xs[1]), Width(xs[0].ty)), log, taken)
    else
      match op.opcode
      case Constant => Effect(Arg(env, xs[0]), log, taken)
      case BitNot => Effect(Cut(-1 - Arg(env, xs[0]), Width(xs[0].ty)), log, taken)
      case Select => Effect(if Arg(env, xs[0]) == 1 then Arg(env, xs[1]) else Arg(env, xs[2]), log, taken)
      case ReadRegister =>
        var log' := log + [RegisterRead(xs[0].payload, op.resultType)];
        Effect(reply(log'), log', taken)
      case WriteRegister => Effect(0, log + [RegisterWrite(xs[0].payload, xs[0].ty, Arg(env, xs[1]))], taken)
      case LoadMemory =>
        var log' := log + [MemoryLoad(Arg(env, xs[0]), op.resultType, op.memoryClass)];
        Effect(reply(log'), log', taken)
      case StoreMemory =>
        Effect(0, log + [MemoryStore(Arg(env, xs[0]), xs[1].ty, op.memoryClass, Arg(env, xs[1]))], taken)
      case SetProgramCounter => Effect(0, log + [CounterSet(Arg(env, xs[0]))], taken)
      case Branch => Effect(0, log + [CounterSet(xs[0].payload)], true)
      case BranchIf =>
        if Arg(env, xs[0]) == 1 then Effect(0, log + [CounterSet(xs[1].payload)], true) else Effect(0, log, taken)
      case CallHelper =>
        var log' := log + [HelperCall(xs[0].payload, op.resultType, Args(env, xs[1..]))];
        Effect(reply(log'), log', taken)
      case Exit => Effect(0, log, taken)
      case RetireInstruction => Effect(0, log, taken)
  }

  function Bind(env: Env, op: Operation, value: nat): Env {
    match op.result
    case Some(id) => env[id := Cut(value, Width(op.resultType))]
    case None => env
  }

  datatype Final = Final(env: Env, log: Log, taken: bool)

  function Then(op: Operation, f: Final, reply: Log -> Word): Final
    requires ValidOperandCount(op.opcode, |op.operands|)
  {
    var e := Denote(op, f.env, f.log, f.taken, reply);
    Final(Bind(f.env, op, e.value), e.log, e.taken)
  }

  /** Every operation from `k` on, once each and in order. */
  function Evaluate(ops: seq<Operation>, k: nat, f: Final, reply: Log -> Word): Final
    requires k <= |ops|
    requires forall i :: 0 <= i < |ops| ==> ValidOperandCount(ops[i].opcode, |ops[i].operands|)
    decreases |ops| - k
  {
    if k == |ops| then f else Evaluate(ops, k + 1, Then(ops[k], f, reply), reply)
  }

  /** The meaning of a whole instruction, started with no values. */
  function Means(x: Instruction, log: Log, reply: Log -> Word): Final
    requires Indexable(x)
  {
    Evaluate(x.operations, 0, Final(map[], log, false), reply)
  }

  // ----- The interpreter computes the meaning -----

  /** The value table holds the environment: zero where nothing is defined yet,
      every defined value within its type. */
  ghost predicate Agrees(values: seq<Word>, env: Env, ops: seq<Operation>, k: nat)
    requires k <= |ops|
  {
    && (forall id: nat :: id < |values| ==> values[id] == Lookup(env, id))
    && (forall id: nat :: id in env ==> Assigned(ops, k, id))
    && (forall j :: 0 <= j < k && ops[j].result.Some? ==>
          ops[j].result.value in env && env[ops[j].result.value] < Pow2(Width(ops[j].resultType)))
  }

  ghost predicate Assigned(ops: seq<Operation>, k: nat, id: nat)
    requires k <= |ops|
  {
    exists j :: 0 <= j < k && ops[j].result == Some(id)
  }

  lemma ArgAgrees(ops: seq<Operation>, k: nat, values: seq<Word>, env: Env, x: Operand)
    requires k < |ops| && ResultOk(ops, k) && OperandOk(ops, k, x)
    requires Agrees(values, env, ops, k) && Roomy(values, ops)
    ensures OperandValue(values, x) == Some(Arg(env, x)) && Arg(env, x) < Pow2(Width(x.ty))
  {
    if x.kind == Value {
      var j :| 0 <= j < k + 1 && Defines(ops, j, x.payload, x.ty);
      assert ops[j].result == Some(x.payload);
    } else {
      TruncateIs(x.payload, x.ty);
    }
  }

  lemma {:induction false} ArgsAgree(values: seq<Word>, env: Env, xs: seq<Operand>)
    requires forall i :: 0 <= i < |xs| ==> OperandValue(values, xs[i]) == Some(Arg(env, xs[i]))
    ensures Arguments(values, xs).Some? && Arguments(values, xs).value == Args(env, xs)
  {
    if xs != [] {
      var front := xs[..|xs| - 1];
      ArgsAgree(values, env, front);
      assert Args(env, xs) == Args(env, front) + [Arg(env, xs[|xs| - 1])];
    }
  }

  /** Every operand reads, inside the table, the in-width value it means. */
  ghost predicate Readable(op: Operation, values: seq<Word>, env: Env) {
    forall i :: 0 <= i < |op.operands| ==>
      && OperandValue(values, op.operands[i]) == Some(Arg(env, op.operands[i]))
      && Arg(env, op.operands[i]) < Pow2(Width(op.operands[i].ty))
  }

  /** What the step notes in the result besides branching. */
  function Noted(op: Operation, r: Result, taken: bool): Result {
    match op.opcode
    case Exit => r.(exitRequested := true, branchTaken := taken)
    case RetireInstruction => r.(retirementReached := true, branchTaken := taken)
    case _ => r.(branchTaken := taken)
  }

  /** A step that does not throw, makes the meant host calls, and computes the
      meant value once cut to the result's type. */
  ghost predicate Matches(op: Operation, s: Option<Stepped>, e: Effect, r: Result) {
    && s.Some? && s.value.log == e.log && s.value.result == Noted(op, r, e.taken)
    && (op.result.Some? ==> Truncate(s.value.value, op.resultType) == Cut(e.value, Width(op.resultType)))
  }

  lemma BinaryMatches(op: Operation, values: seq<Word>, env: Env, log: Log, r: Result, reply: Log -> Word)
    requires ValidOperandCount(op.opcode, |op.operands|) && SemanticTypes(op) && Readable(op, values, env)
    requires Binary(op.opcode)
    ensures Matches(op, Step(op, values, log, r, reply), Denote(op, env, log, r.branchTaken, reply), r)
  {
    hide BinaryWord, Meaning, Cut, Truncate;
    var xs := op.operands;
    var a, b := OperandValue(values, xs[0]).value, OperandValue(values, xs[1]).value;
    BinaryAgrees(op.opcode, a, b, op.resultType, xs[0].ty);
  }

  predicate Silent(opcode: Opcode) {
    opcode in {Constant, BitNot, Select}
  }

  lemma SilentMatches(op: Operation, values: seq<Word>, env: Env, log: Log, r: Result, reply: Log -> Word)
    requires ValidOperandCount(op.opcode, |op.operands|) && SemanticTypes(op) && Readable(op, values, env)
    requires Silent(op.opcode)
    ensures Matches(op, Step(op, values, log, r, reply), Denote(op, env, log, r.branchTaken, reply), r)
  {
    hide Truncate, Cut, OperandValue, Arg;
    assert Pow2(1) == 2;
    match op.opcode {
      case BitNot =>
        NotAgrees(OperandValue(values, op.operands[0]).value, op.resultType);
        CutTwice(-1 - Arg(env, op.operands[0]), Width(op.resultType));
      case Constant => TruncateIs(OperandValue(values, op.operands[0]).value, op.resultType);
      case Select =>
        var x := if OperandValue(values, op.operands[0]).value != 0 then op.operands[1] else op.operands[2];
        TruncateIs(OperandValue(values, x).value, op.resultType);
    }
  }

  lemma HelperMatches(op: Operation, values: seq<Word>, env: Env, log: Log, r: Result, reply: Log -> Word)
    requires ValidOperandCount(op.opcode, |op.operands|) && SemanticTypes(op) && Readable(op, values, env)
    requires op.opcode == CallHelper && op.operands[0].payload <= MAX_ID
    ensures Matches(op, Step(op, values, log, r, reply), Denote(op, env, log, r.branchTaken, reply), r)
  {
    hide Truncate, Cut, OperandValue, Arg;
    ArgsAgree(values, env, op.operands[1..]);
    TruncateIs(Step(op, values, log, r, reply).value.value, op.resultType);
  }

  lemma HostMatches(op: Operation, values: seq<Word>, env: Env, log: Log, r: Result, reply: Log -> Word)
    requires ValidOperandCount(op.opcode, |op.operands|) && SemanticTypes(op) && Readable(op, values, env)
    requires forall i :: 0 <= i < |op.operands| && op.operands[i].kind == GuestRegister ==> op.operands[i].payload <= MAX_ID
    requires !Binary(op.opcode) && !Silent(op.opcode) && op.opcode != CallHelper && ResultWhereNeeded(op)
    ensures Matches(op, Step(op, values, log, r, reply), Denote(op, env, log, r.branchTaken, reply), r)
  {
    hide Truncate, Cut, OperandValue, Arg;
    assert Pow2(1) == 2;
    TruncateIs(Step(op, values, log, r, reply).value.value, op.resultType);
  }

  predicate ResultWhereNeeded(op: Operation) {
    ForbidsResult(op.opcode) ==> op.result.None?
  }

  /** One well-formed operation does what it means. */
  lemma StepMatches(ops: seq<Operation>, k: nat, values: seq<Word>, env: Env, log: Log, r: Result, reply: Log -> Word)
    requires k < |ops| && OperationOk(ops, k)
    requires Agrees(values, env, ops, k) && Roomy(values, ops)
    ensures Readable(ops[k], values, env)
    ensures Matches(ops[k], Step(ops[k], values, log, r, reply), Denote(ops[k], env, log, r.branchTaken, reply), r)
  {
    var op := ops[k];
    forall i | 0 <= i < |op.operands|
      ensures OperandValue(values, op.operands[i]) == Some(Arg(env, op.operands[i]))
      ensures Arg(env, op.operands[i]) < Pow2(Width(op.operands[i].ty))
    {
      ArgAgrees(ops, k, values, env, op.operands[i]);
    }
    if Binary(op.opcode) {
      BinaryMatches(op, values, env, log, r, reply);
    } else {
      assert forall i :: 0 <= i < |op.operands| ==> OperandOk(ops, k, op.operands[i]);
      if Silent(op.opcode) {
        SilentMatches(op, values, env, log, r, reply);
      } else if op.opcode == CallHelper {
        HelperMatches(op, values, env, log, r, reply);
      } else {
        HostMatches(op, values, env, log, r, reply);
      }
    }
  }

  lemma BindAgrees(ops: seq<Operation>, k: nat, values: seq<Word>, env: Env, id: nat, v: nat)
    requires k < |ops| && ResultOk(ops, k) && ops[k].result == Some(id)
    requires Agrees(values, env, ops, k) && Roomy(values, ops)
    requires v < Pow2(Width(ops[k].resultType)) && v < WORD
    ensures Agrees(values[id := v], env[id := v], ops, k + 1)
  {
    var env', n := env[id := v], k + 1;
    forall i: nat | i in env'
      ensures Assigned(ops, n, i)
    {
      if i == id {
        assert ops[k].result == Some(i);
      } else {
        assert Assigned(ops, k, i);
      }
    }
  }

  lemma AgreesMore(ops: seq<Operation>, k: nat, values: seq<Word>, env: Env)
    requires k < |ops| && ops[k].result.None? && Agrees(values, env, ops, k)
    ensures Agrees(values, env, ops, k + 1)
  {
    var n := k + 1;
    forall i: nat | i in env
      ensures Assigned(ops, n, i)
    {
      assert Assigned(ops, k, i);
    }
  }

  ghost predicate Exited(ops: seq<Operation>, k: nat)
    requires k <= |ops|
  {
    exists j :: 0 <= j < k && ops[j].opcode == Exit
  }

  /** The machine before operation `k` and the meaning before operation `k` are in step. */
  ghost predicate Simulates(m: Machine, f: Final, ops: seq<Operation>, k: nat)
    requires k <= |ops|
  {
    && Roomy(m.values, ops) && Agrees(m.values, f.env, ops, k)
    && m.log == f.log && m.result.branchTaken == f.taken
    && (m.result.exitRequested <==> Exited(ops, k))
    && (m.result.retirementReached <==> k == |ops|)
  }

  lemma AdvanceSimulates(ops: seq<Operation>, k: nat, m: Machine, f: Final, reply: Log -> Word)
    requires k < |ops| && OperationOk(ops, k) && Simulates(m, f, ops, k)
    requires ops[k].opcode == RetireInstruction <==> k == |ops| - 1
    ensures var m' := Advance(ops[k], m, reply);
            m'.Some? && Simulates(m'.value, Then(ops[k], f, reply), ops, k + 1)
  {
    hide Step, Denote, Agrees, Readable;
    StepMatches(ops, k, m.values, f.env, m.log, m.result, reply);
    var s := Step(ops[k], m.values, m.log, m.result, reply);
    var e := Denote(ops[k], f.env, f.log, f.taken, reply);
    assert Exited(ops, k + 1) <==> Exited(ops, k) || ops[k].opcode == Exit;
    match ops[k].result {
      case Some(id) =>
        BindAgrees(ops, k, m.values, f.env, id, Cut(e.value, Width(ops[k].resultType)));
      case None => AgreesMore(ops, k, m.values, f.env);
    }
  }

  lemma AcceptedIsIndexable(x: Instruction)
    requires InstructionOk(x)
    ensures Indexable(x)
  {
    forall i | 0 <= i < |x.operations|
      ensures ValidOperandCount(x.operations[i].opcode, |x.operations[i].operands|)
    {
      assert OperationOk(x.operations, i);
    }
  }

  lemma ExitsOnlyBeforeRetirement(x: Instruction, k: nat)
    requires InstructionOk(x) && k < |x.operations|
    ensures x.operations[k].opcode == RetireInstruction <==> k == |x.operations| - 1
    ensures Exited(x.operations, k) ==> k == |x.operations| - 1
  {
    assert OperationOk(x.operations, k);
    if Exited(x.operations, k) {
      var j :| 0 <= j < k && x.operations[j].opcode == Exit;
      assert OperationOk(x.operations, j);
    }
  }

  /** From operation `k` on, the loop runs every operation once and ends in
      retirement: an exit can only be followed by retirement, so the branch
      that skips operations after an exit never drops one. */
  lemma {:induction false} LoopSimulates(x: Instruction, k: nat, m: Machine, f: Final, reply: Log -> Word)
    requires InstructionOk(x) && k < |x.operations| && Indexable(x) && Simulates(m, f, x.operations, k)
    ensures var m' := Loop(x.operations, k, m, reply);
            m'.Some? && Simulates(m'.value, Evaluate(x.operations, k, f, reply), x.operations, |x.operations|)
    decreases |x.operations| - k
  {
    hide Advance, Then, Agrees, OperationOk;
    var ops := x.operations;
    assert OperationOk(ops, k);
    ExitsOnlyBeforeRetirement(x, k);
    AdvanceSimulates(ops, k, m, f, reply);
    if k + 1 < |ops| {
      LoopSimulates(x, k + 1, Advance(ops[k], m, reply).value, Then(ops[k], f, reply), reply);
    }
  }

  /** Every value an accepted instruction defines lies within its declared type. */
  ghost predicate Typed(ops: seq<Operation>, env: Env, values: seq<Word>) {
    forall j :: 0 <= j < |ops| && ops[j].result.Some? ==>
      && ops[j].result.value in env && ops[j].result.value < |values|
      && values[ops[j].result.value] == env[ops[j].result.value] < Pow2(Width(ops[j].resultType))
  }

  lemma SimulatedIsTyped(m: Machine, f: Final, ops: seq<Operation>)
    requires Simulates(m, f, ops, |ops|)
    ensures Typed(ops, f.env, m.values)
  {
  }

  lemma StartSimulates(x: Instruction, log: Log)
    requires x.operations != []
    ensures Simulates(Start(x, log), Final(map[], log, false), x.operations, 0)
  {
  }

  lemma SelectorIsFlag(x: Instruction, m: Machine, f: Final)
    requires InstructionOk(x) && x.takenCondition.Some?
    requires Simulates(m, f, x.operations, |x.operations|)
    ensures x.takenCondition.value < |m.values|
    ensures m.values[x.takenCondition.value] == Lookup(f.env, x.takenCondition.value) <= 1
  {
    var id := x.takenCondition.value;
    var j :| 0 <= j < |x.operations| && Defines(x.operations, j, id, Bool);
    assert Pow2(1) == 2;
    assert x.operations[j].result.value == id;
  }

  /** Validation soundness: for every accepted instruction and every host the
      interpreter never reads outside its table, and its host calls, values,
      branch, exit, retirement and cycle selector are those of the
      straight-line meaning. */
  lemma AcceptedRunsAsMeant(x: Instruction, log: Log, reply: Log -> Word)
    requires InstructionOk(x)
    ensures Indexable(x) && Run(x, log, reply).Some?
    ensures var m, f := Run(x, log, reply).value, Means(x, log, reply);
            && m.log == f.log && Typed(x.operations, f.env, m.values)
            && m.result.retirementReached
            && m.result.branchTaken == f.taken
            && (m.result.exitRequested <==> Exited(x.operations, |x.operations|))
            && (m.result.cycleCondition <==> x.takenCondition.Some? && Lookup(f.env, x.takenCondition.value) == 1)
  {
    hide Loop, Evaluate, Agrees;
    AcceptedIsIndexable(x);
    StartSimulates(x, log);
    LoopSimulates(x, 0, Start(x, log), Final(map[], log, false), reply);
    SimulatedIsTyped(Loop(x.operations, 0, Start(x, log), reply).value, Means(x, log, reply), x.operations);
    LoopKeepsSelector(x.operations, 0, Start(x, log), reply);
    if x.takenCondition.Some? {
      SelectorIsFlag(x, Loop(x.operations, 0, Start(x, log), reply).value, Means(x, log, reply));
    }
  }

  lemma AdvanceKeepsSelector(op: Operation, m: Machine, reply: Log -> Word)
    requires ValidOperandCount(op.opcode, |op.operands|)
    requires op.result.Some? ==> op.result.value < |m.values|
    ensures Advance(op, m, reply).Some? ==> Advance(op, m, reply).value.result.cycleCondition == m.result.cycleCondition
  {
  }

  /** No operation touches the cycle selector's flag. */
  lemma {:induction false} LoopKeepsSelector(ops: seq<Operation>, k: nat, m: Machine, reply: Log -> Word)
    requires k <= |ops| && Roomy(m.values, ops)
    requires forall i :: 0 <= i < |ops| ==> ValidOperandCount(ops[i].opcode, |ops[i].operands|)
    ensures Loop(ops, k, m, reply).Some? ==> Loop(ops, k, m, reply).value.result.cycleCondition == m.result.cycleCondition
    decreases |ops| - k
  {
    hide Advance;
    if k < |ops| {
      if m.result.exitRequested && ops[k].opcode != RetireInstruction {
        LoopKeepsSelector(ops, k + 1, m, reply);
      } else {
        AdvanceKeepsSelector(ops[k], m, reply);
        if Advance(ops[k], m, reply).Some? {
          LoopKeepsSelector(ops, k + 1, Advance(ops[k], m, reply).value, reply);
        }
      }
    }
  }

  // ----- What the host is handed -----

  /** Register and memory writes carry values of the width they name. */
  predicate InWidth(e: Event) {
    match e
    case RegisterWrite(_, ty, value) => value < Pow2(Width(ty))
    case MemoryStore(_, ty, _, value) => IsInteger(ty) && value < Pow2(Width(ty))
    case _ => true
  }

  ghost predicate ExtendsInWidth(log: Log, log': Log) {
    log <= log' && forall i :: |log| <= i < |log'| ==> InWidth(log'[i])
  }

  lemma DenoteInWidth(op: Operation, values: seq<Word>, f: Final, reply: Log -> Word)
    requires ValidOperandCount(op.opcode, |op.operands|) && SemanticTypes(op) && Readable(op, values, f.env)
    ensures ExtendsInWidth(f.log, Then(op, f, reply).log)
  {
  }

  lemma AdvanceInWidth(ops: seq<Operation>, k: nat, m: Machine, f: Final, reply: Log -> Word)
    requires k < |ops| && OperationOk(ops, k) && Simulates(m, f, ops, k)
    ensures ExtendsInWidth(f.log, Then(ops[k], f, reply).log)
  {
    hide Then, ExtendsInWidth, Agrees, Readable;
    StepMatches(ops, k, m.values, f.env, m.log, m.result, reply);
    DenoteInWidth(ops[k], m.values, f, reply);
  }

  lemma ExtendsTrans(a: Log, b: Log, c: Log)
    requires ExtendsInWidth(a, b) && ExtendsInWidth(b, c)
    ensures ExtendsInWidth(a, c)
  {
  }

  lemma {:induction false} LoopInWidth(x: Instruction, k: nat, m: Machine, f: Final, reply: Log -> Word)
    requires InstructionOk(x) && k < |x.operations| && Indexable(x) && Simulates(m, f, x.operations, k)
    ensures ExtendsInWidth(f.log, Evaluate(x.operations, k, f, reply).log)
    decreases |x.operations| - k
  {
    hide Advance, Then, Agrees, OperationOk, ExtendsInWidth;
    var ops := x.operations;
    assert OperationOk(ops, k);
    ExitsOnlyBeforeRetirement(x, k);
    AdvanceInWidth(ops, k, m, f, reply);
    AdvanceSimulates(ops, k, m, f, reply);
    var f' := Then(ops[k], f, reply);
    if k + 1 < |ops| {
      LoopInWidth(x, k + 1, Advance(ops[k], m, reply).value, f', reply);
      ExtendsTrans(f.log, f'.log, Evaluate(ops, k + 1, f', reply).log);
    }
  }

  /** An accepted instruction only ever hands the host in-width register and memory values. */
  lemma AcceptedCallsInWidth(x: Instruction, log: Log, reply: Log -> Word)
    requires InstructionOk(x)
    ensures Indexable(x) && Run(x, log, reply).Some?
    ensures ExtendsInWidth(log, Run(x, log, reply).value.log)
  {
    AcceptedRunsAsMeant(x, log, reply);
    StartSimulates(x, log);
    LoopInWidth(x, 0, Start(x, log), Final(map[], log, false), reply);
  }

  // ----- Self-references -----

  /** The validator lets an operation read its own result; at run time such a
      read finds the zero the table starts with. */
  lemma SelfReferenceReadsZero(ops: seq<Operation>, k: nat, values: seq<Word>, env: Env, x: Operand)
    requires k < |ops| && OperationOk(ops, k) && x in ops[k].operands
    requires x.kind == Value && ops[k].result == Some(x.payload)
    requires Agrees(values, env, ops, k) && Roomy(values, ops)
    ensures OperandValue(values, x) == Some(0)
  {
    ArgAgrees(ops, k, values, env, x);
    assert !Assigned(ops, k, x.payload);
  }

  lemma ReadsItself(ops: seq<Operation>)
    requires |ops| == 2 && ops[0] == Operation(BitNot, Some(1), I8, [Operand(Value, I8, 1)], Generic)
    ensures OperationOk(ops, 0)
  {
    assert Defines(ops, 0, 1, I8);
    assert ResultOk(ops, 0);
  }

  /** Such an operation really is accepted: value 1 defined as the complement of itself. */
  lemma SelfReferenceIsAccepted()
    ensures var not := Operation(BitNot, Some(1), I8, [Operand(Value, I8, 1)], Generic);
            var retire := Operation(RetireInstruction, None, Void, [], Generic);
            InstructionOk(Instruction(0, 1, 1, 1, None, false, [not, retire]))
  {
    var not := Operation(BitNot, Some(1), I8, [Operand(Value, I8, 1)], Generic);
    var retire := Operation(RetireInstruction, None, Void, [], Generic);
    ReadsItself([not, retire]);
    assert ResultOk([not, retire], 1);
  }
}
