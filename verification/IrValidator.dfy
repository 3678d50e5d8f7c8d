/** The block validator: one scan with a table of the values defined so far. */
module IrValidator {
  import opened IR
  import opened Wrappers

  datatype Fault =
    | NoInstructions | StartMismatch | NotContiguous | ZeroLength | ZeroCycles | ControlFlowNotLast
    | NoRetirement | OperandCount | MissingResult | ForbiddenResult | BadResult | UntypedResult
    | WideOperandId | BadValueUse | SemanticTypeMismatch | StrayMemoryClass | EarlyRetirement | MisplacedExit
    | RetirementCount | ExitCount | BadCycleSelector | NoCycleSelector | AddressOverflow | EndMismatch
    | EmptyCodeGuard | StrayCodeBytes | CodeGuardOverflow | DuplicateGuard

  datatype Verdict = Valid | Invalid(instructionIndex: nat, operationIndex: nat, fault: Fault)

  datatype Check = Pass | Fail(fault: Fault)

  /** `values` is the table of everything the first `n` operations define. */
  ghost predicate Tabulates(values: map<nat, ValueType>, ops: seq<Operation>, n: nat)
    requires n <= |ops|
  {
    forall id: nat, ty :: id in values && values[id] == ty <==> DefinedBefore(ops, n, id, ty)
  }

  /** The result checks of operation `k`, and the table with its result entered. */
  method EnterResult(ops: seq<Operation>, k: nat, values: map<nat, ValueType>)
    returns (c: Check, values': map<nat, ValueType>)
    requires k < |ops| && Tabulates(values, ops, k)
    ensures c.Pass? <==> ResultOk(ops, k)
    ensures c.Pass? ==> Tabulates(values', ops, k + 1)
  {
    var op := ops[k];
    values' := values;
    if RequiresResult(op.opcode) && op.result.None? { return Fail(MissingResult), values'; }
    if ForbidsResult(op.opcode) && op.result.Some? { return Fail(ForbiddenResult), values'; }
    if op.result.Some? {
      var id := op.result.value;
      assert id in values <==> exists j :: 0 <= j < k && ops[j].result == Some(id) by {
        if id in values { assert DefinedBefore(ops, k, id, values[id]); }
        if j :| 0 <= j < k && ops[j].result == Some(id) {
          assert Defines(ops, j, id, ops[j].resultType);
          assert DefinedBefore(ops, k, id, ops[j].resultType);
        }
      }
      if id == 0 || op.resultType == Void || id in values { return Fail(BadResult), values'; }
      values' := values[id := op.resultType];
    } else if op.resultType != Void {
      return Fail(UntypedResult), values';
    }
    var n := k + 1;
    forall id: nat, ty
      ensures id in values' && values'[id] == ty <==> DefinedBefore(ops, n, id, ty)
    {
      DefinedMore(ops, k, id, ty);
    }
    c := Pass;
  }

  lemma DefinedMore(ops: seq<Operation>, k: nat, id: nat, ty: ValueType)
    requires k < |ops|
    ensures DefinedBefore(ops, k + 1, id, ty) <==> DefinedBefore(ops, k, id, ty) || Defines(ops, k, id, ty)
  {
    if DefinedBefore(ops, k, id, ty) {
      var j :| 0 <= j < k && Defines(ops, j, id, ty);
      assert Defines(ops, j, id, ty);
    }
  }

  method CheckOperands(ops: seq<Operation>, k: nat, values: map<nat, ValueType>) returns (c: Check)
    requires k < |ops| && Tabulates(values, ops, k + 1)
    ensures c.Pass? <==> forall i :: 0 <= i < |ops[k].operands| ==> OperandOk(ops, k, ops[k].operands[i])
  {
    var xs := ops[k].operands;
    for i := 0 to |xs|
      invariant forall j :: 0 <= j < i ==> OperandOk(ops, k, xs[j])
    {
      var x := xs[i];
      if x.kind in {Value, GuestRegister, Helper} && x.payload > MAX_ID { return Fail(WideOperandId); }
      if x.kind != Value { continue; }
      if x.payload !in values || values[x.payload] != x.ty { return Fail(BadValueUse); }
    }
    c := Pass;
  }

  method CheckOperation(ops: seq<Operation>, k: nat, values: map<nat, ValueType>)
    returns (c: Check, values': map<nat, ValueType>)
    requires k < |ops| && Tabulates(values, ops, k)
    ensures c.Pass? <==> OperationOk(ops, k)
    ensures c.Pass? ==> Tabulates(values', ops, k + 1)
  {
    var op := ops[k];
    values' := values;
    if !ValidOperandCount(op.opcode, |op.operands|) { return Fail(OperandCount), values'; }
    c, values' := EnterResult(ops, k, values);
    if c.Fail? { return; }
    c := CheckOperands(ops, k, values');
    if c.Fail? { return; }
    if !SemanticTypes(op) { return Fail(SemanticTypeMismatch), values'; }
    if op.opcode != LoadMemory && op.opcode != StoreMemory && op.memoryClass != Generic {
      return Fail(StrayMemoryClass), values';
    }
    if op.opcode == RetireInstruction && k + 1 != |ops| { return Fail(EarlyRetirement), values'; }
    if op.opcode == Exit && k + 2 != |ops| { return Fail(MisplacedExit), values'; }
  }

  function Count(ops: seq<Operation>, opcode: Opcode): nat {
    if ops == [] then 0
    else Count(ops[..|ops| - 1], opcode) + (if ops[|ops| - 1].opcode == opcode then 1 else 0)
  }

  lemma CountNext(ops: seq<Operation>, n: nat)
    requires n < |ops|
    ensures forall opcode :: Count(ops[..n + 1], opcode) == Count(ops[..n], opcode) + (if ops[n].opcode == opcode then 1 else 0)
  {
    assert ops[..n + 1][..n] == ops[..n];
  }

  /** An opcode confined to position `p` occurs at most once, and once if it is there. */
  lemma {:induction false} CountConfined(ops: seq<Operation>, opcode: Opcode, p: int)
    requires forall k :: 0 <= k < |ops| && ops[k].opcode == opcode ==> k == p
    ensures Count(ops, opcode) == if 0 <= p < |ops| && ops[p].opcode == opcode then 1 else 0
  {
    if ops != [] {
      CountConfined(ops[..|ops| - 1], opcode, p);
    }
  }

  /** Well-formed operations retire once and exit at most once. */
  lemma RetiresOnce(ops: seq<Operation>)
    requires ops != [] && ops[|ops| - 1].opcode == RetireInstruction
    requires forall k :: 0 <= k < |ops| ==> OperationOk(ops, k)
    ensures Count(ops, RetireInstruction) == 1 && Count(ops, Exit) <= 1
  {
    forall k | 0 <= k < |ops|
      ensures ops[k].opcode == RetireInstruction ==> k == |ops| - 1
      ensures ops[k].opcode == Exit ==> k == |ops| - 2
    {
      assert OperationOk(ops, k);
    }
    CountConfined(ops, RetireInstruction, |ops| - 1);
    CountConfined(ops, Exit, |ops| - 2);
  }

  /** The scan of one instruction. It stops at the first operation that is not
      well formed; the two counting checks after it can never fail. */
  method CheckOperations(x: Instruction) returns (c: Check, at: nat, values: map<nat, ValueType>)
    requires x.operations != [] && x.operations[|x.operations| - 1].opcode == RetireInstruction
    ensures c.Pass? <==> forall k :: 0 <= k < |x.operations| ==> OperationOk(x.operations, k)
    ensures c.Pass? ==> Tabulates(values, x.operations, |x.operations|)
    ensures c.Fail? ==> at < |x.operations| && !OperationOk(x.operations, at)
    ensures c.Fail? ==> forall k :: 0 <= k < at ==> OperationOk(x.operations, k)
  {
    var ops := x.operations;
    var retirements, exits := 0, 0;
    values, at := map[], 0;
    while at < |ops|
      invariant 0 <= at <= |ops|
      invariant forall k :: 0 <= k < at ==> OperationOk(ops, k)
      invariant Tabulates(values, ops, at)
      invariant retirements == Count(ops[..at], RetireInstruction) && exits == Count(ops[..at], Exit)
    {
      c, values := CheckOperation(ops, at, values);
      if c.Fail? { return; }
      CountNext(ops, at);
      if ops[at].opcode == RetireInstruction { retirements := retirements + 1; }
      if ops[at].opcode == Exit { exits := exits + 1; }
      at := at + 1;
    }
    assert ops[..at] == ops;
    RetiresOnce(ops);
    c := if retirements != 1 then Fail(RetirementCount) else if exits > 1 then Fail(ExitCount) else Pass;
  }

  method CheckInstruction(x: Instruction) returns (c: Check, at: nat)
    requires x.length > 0 && x.cyclesNotTaken > 0 && x.cyclesTaken > 0
    ensures c.Pass? <==> InstructionOk(x)
  {
    at := 0;
    if x.operations == [] || x.operations[|x.operations| - 1].opcode != RetireInstruction {
      return Fail(NoRetirement), 0;
    }
    var values;
    c, at, values := CheckOperations(x);
    if c.Fail? { return; }
    match x.takenCondition {
      case Some(id) =>
        if id !in values || values[id] != Bool { return Fail(BadCycleSelector), 0; }
      case None =>
        if x.cyclesNotTaken != x.cyclesTaken { return Fail(NoCycleSelector), 0; }
    }
  }

  /** The checks of instruction `i` as the block scan makes them. */
  ghost predicate PrefixOk(xs: seq<Instruction>, n: nat, expected: Word)
    requires n <= |xs|
  {
    && (forall i :: 0 <= i < n ==> InstructionOk(xs[i]))
    && (forall i :: 0 <= i < n && i + 1 < |xs| ==> !xs[i].controlFlow)
    && (forall i :: 0 <= i < n - 1 ==> xs[i + 1].address == xs[i].address + xs[i].length)
    && (forall i :: 0 <= i < n ==> xs[i].address + xs[i].length <= MAX_WORD)
    && (n > 0 ==> expected == xs[n - 1].address + xs[n - 1].length)
  }

  method CheckGuards(guards: seq<Guard>) returns (c: Check)
    ensures c.Pass? <==> GuardsOk(guards)
  {
    for i := 0 to |guards|
      invariant forall j :: 0 <= j < i ==> GuardOk(guards[j])
      invariant forall j, k :: 0 <= j < k < i ==> guards[j] != guards[k]
    {
      var guard := guards[i];
      if guard.kind == CodeBytes && guard.bytes == [] { return Fail(EmptyCodeGuard); }
      if guard.kind != CodeBytes && guard.bytes != [] { return Fail(StrayCodeBytes); }
      if guard.kind == CodeBytes && |guard.bytes| - 1 > MAX_WORD - guard.subject { return Fail(CodeGuardOverflow); }
      for j := 0 to i
        invariant forall k :: 0 <= k < j ==> guards[k] != guard
      {
        if guards[j] == guard { return Fail(DuplicateGuard); }
      }
    }
    c := Pass;
  }

  /** The checks of one instruction where the scan expects it. */
  ghost predicate PlacedOk(xs: seq<Instruction>, i: nat, expected: Word)
    requires i < |xs|
  {
    && xs[i].address == expected && InstructionOk(xs[i])
    && (xs[i].controlFlow ==> i + 1 == |xs|) && expected + xs[i].length <= MAX_WORD
  }

  method CheckPlaced(xs: seq<Instruction>, i: nat, expected: Word) returns (c: Check, at: nat)
    requires i < |xs|
    ensures c.Pass? <==> PlacedOk(xs, i, expected)
  {
    var x := xs[i];
    if x.address != expected { return Fail(NotContiguous), 0; }
    if x.length == 0 { return Fail(ZeroLength), 0; }
    if x.cyclesNotTaken == 0 || x.cyclesTaken == 0 { return Fail(ZeroCycles), 0; }
    if x.controlFlow && i + 1 != |xs| { return Fail(ControlFlowNotLast), 0; }
    c, at := CheckInstruction(x);
    if c.Fail? { return; }
    if x.length > MAX_WORD - expected { return Fail(AddressOverflow), 0; }
  }

  lemma PrefixStep(xs: seq<Instruction>, i: nat, expected: Word)
    requires i < |xs| && PrefixOk(xs, i, expected) && PlacedOk(xs, i, expected)
    ensures PrefixOk(xs, i + 1, expected + xs[i].length)
  {
    hide InstructionOk;
  }

  lemma PrefixStuck(xs: seq<Instruction>, i: nat, expected: Word)
    requires i < |xs| && PrefixOk(xs, i, expected) && !PlacedOk(xs, i, expected) && (i == 0 ==> expected == xs[0].address)
    ensures !(Contiguous(xs) && forall j :: 0 <= j < |xs| ==> InstructionOk(xs[j]))
  {
    hide InstructionOk;
    if i > 0 { assert xs[i - 1 + 1].address == xs[i].address; }
  }

  /** The scan over the instructions of a block. */
  method CheckInstructions(b: Block) returns (v: Verdict, expected: Word)
    requires b.instructions != [] && b.guestStart == b.instructions[0].address
    ensures v.Valid? <==> Contiguous(b.instructions) && forall i :: 0 <= i < |b.instructions| ==> InstructionOk(b.instructions[i])
    ensures v.Valid? ==> PrefixOk(b.instructions, |b.instructions|, expected)
    ensures v.Invalid? ==> v.instructionIndex < |b.instructions|
    ensures v.Invalid? ==> forall i :: 0 <= i < v.instructionIndex ==> InstructionOk(b.instructions[i])
  {
    hide InstructionOk, PlacedOk;
    var xs := b.instructions;
    expected := b.guestStart;
    var i := 0;
    while i < |xs|
      invariant 0 <= i <= |xs| && PrefixOk(xs, i, expected)
      invariant i == 0 ==> expected == xs[0].address
    {
      var c, at := CheckPlaced(xs, i, expected);
      if c.Fail? {
        PrefixStuck(xs, i, expected);
        return Invalid(i, at, c.fault), expected;
      }
      PrefixStep(xs, i, expected);
      expected := expected + xs[i].length;
      i := i + 1;
    }
    v := Valid;
  }

  /** The validator accepts exactly the well-formed blocks, and a rejection
      names the first instruction at which the scan stopped. */
  method Validate(b: Block) returns (v: Verdict)
    ensures v.Valid? <==> WellFormed(b)
    ensures v.Invalid? ==> forall i :: 0 <= i < v.instructionIndex && i < |b.instructions| ==> InstructionOk(b.instructions[i])
  {
    if b.instructions == [] { return Invalid(0, 0, NoInstructions); }
    if b.guestStart != b.instructions[0].address { return Invalid(0, 0, StartMismatch); }
    var expected;
    v, expected := CheckInstructions(b);
    if v.Invalid? { return; }
    if b.guestEnd != expected - 1 { return Invalid(0, 0, EndMismatch); }
    var c := CheckGuards(b.guards);
    if c.Fail? { return Invalid(0, 0, c.fault); }
  }
}
