/** The execution service: what preparation guarantees, and why a prepared block
    cannot fail once execution has begun. */
module IrService {
  import opened IR
  import opened IrInterpreter
  import opened IrSemantics
  import opened IrValidator
  import opened Wrappers

  const MAX_INSTRUCTIONS := 16
  const MAX_GUEST_BYTES := 48
  const MAX_GUARDS := 16
  const MAX_OPS := 64
  const MAX_OPERANDS := 8
  const MAX_VALUES := 64
  const MAX_CYCLES := 1_000_000

  /** A copied source instruction; only the first `length` of its four bytes count. */
  datatype Source = Source(address: Word, bytes: seq<Byte>, length: Byte)

  datatype Request = Request(instructions: seq<Source>, mappingGeneration: Word, executionState: Word)

  /** The constants a core contributes to the required guards. */
  datatype Profile = Profile(helperAbiVersion: Word, executionStateMask: Word, maximumGuestAddress: Word)

  // ----- The required guards -----

  predicate SourceOk(p: Profile, s: Source, x: Instruction) {
    && s.address <= p.maximumGuestAddress && s.length > 0
    && s.length - 1 <= p.maximumGuestAddress - s.address
    && s.length <= |s.bytes|
    && x.address == s.address && x.length == s.length
  }

  /** The same without wrapping: a non-empty copy that ends within the guest's addresses. */
  predicate CopiedFrom(p: Profile, s: Source, x: Instruction) {
    && 0 < s.length <= |s.bytes| && s.address + s.length <= p.maximumGuestAddress + 1
    && x.address == s.address && x.length == s.length
  }

  lemma SourceIsCopied(p: Profile, s: Source, x: Instruction)
    ensures SourceOk(p, s, x) <==> CopiedFrom(p, s, x)
  {
  }

  /** The copied bytes of the first `n` source instructions. */
  ghost function CodeOf(xs: seq<Source>, n: nat): seq<Byte>
    requires n <= |xs| && forall i :: 0 <= i < n ==> xs[i].length <= |xs[i].bytes|
  {
    if n == 0 then [] else CodeOf(xs, n - 1) + xs[n - 1].bytes[..xs[n - 1].length]
  }

  ghost predicate MatchesSource(r: Request, p: Profile, b: Block) {
    && 0 < |b.instructions| <= |r.instructions|
    && b.mappingGeneration == r.mappingGeneration
    && b.guestStart == r.instructions[0].address
    && forall i :: 0 <= i < |b.instructions| ==> CopiedFrom(p, r.instructions[i], b.instructions[i])
  }

  predicate Scalar(g: Guard, expected: Word, mask: Word) {
    g.subject == 0 && g.expected == expected && g.mask == mask && g.bytes == []
  }

  ghost predicate GuardMatches(r: Request, p: Profile, code: seq<Byte>, g: Guard)
    requires r.instructions != []
  {
    match g.kind
    case MappingGeneration => g == Guard(MappingGeneration, 0, r.mappingGeneration, 0xFFFF_FFFF_FFFF_FFFF, [])
    case HelperAbi => g == Guard(HelperAbi, 0, p.helperAbiVersion, 0xFFFF_FFFF_FFFF_FFFF, [])
    case ExecutionState => g == Guard(ExecutionState, 0, r.executionState, p.executionStateMask, [])
    case CodeBytes => g == Guard(CodeBytes, r.instructions[0].address, 0, 0xFFFF_FFFF_FFFF_FFFF, code)
  }

  ghost predicate HasKind(guards: seq<Guard>, kind: GuardKind) {
    exists i :: 0 <= i < |guards| && guards[i].kind == kind
  }

  /** Each guard kind exactly once, each saying what the request says. */
  ghost predicate ProfileOk(r: Request, p: Profile, b: Block) {
    && MatchesSource(r, p, b)
    && (forall kind: GuardKind :: HasKind(b.guards, kind))
    && (forall i, j :: 0 <= i < j < |b.guards| ==> b.guards[i].kind != b.guards[j].kind)
    && (forall i :: 0 <= i < |b.guards| ==> GuardMatches(r, p, CodeOf(r.instructions, |b.instructions|), b.guards[i]))
  }

  method CollectCode(r: Request, p: Profile, b: Block) returns (ok: bool, code: seq<Byte>)
    requires 0 < |b.instructions| <= |r.instructions|
    ensures ok <==> forall i :: 0 <= i < |b.instructions| ==> CopiedFrom(p, r.instructions[i], b.instructions[i])
    ensures ok ==> code == CodeOf(r.instructions, |b.instructions|)
  {
    code := [];
    for i := 0 to |b.instructions|
      invariant forall j :: 0 <= j < i ==> CopiedFrom(p, r.instructions[j], b.instructions[j])
      invariant code == CodeOf(r.instructions, i)
    {
      var s := r.instructions[i];
      SourceIsCopied(p, s, b.instructions[i]);
      if !SourceOk(p, s, b.instructions[i]) { return false, code; }
      code := code + s.bytes[..s.length];
    }
    ok := true;
  }

  /** Finds the guard of each kind; fails on a kind that is repeated or missing. */
  method CollectGuards(guards: seq<Guard>) returns (ok: bool, found: map<GuardKind, Guard>)
    ensures ok <==> (forall kind: GuardKind :: HasKind(guards, kind)) && (forall i, j :: 0 <= i < j < |guards| ==> guards[i].kind != guards[j].kind)
    ensures ok ==> (forall kind: GuardKind :: kind in found) && forall i :: 0 <= i < |guards| ==> found[guards[i].kind] == guards[i]
  {
    found := map[];
    for i := 0 to |guards|
      invariant forall k, j :: 0 <= k < j < i ==> guards[k].kind != guards[j].kind
      invariant forall k :: 0 <= k < i ==> guards[k].kind in found && found[guards[k].kind] == guards[k]
      invariant forall kind: GuardKind :: kind in found ==> HasKind(guards[..i], kind)
    {
      if guards[i].kind in found {
        assert HasKind(guards[..i], guards[i].kind);
        return false, found;
      }
      KindsGrow(guards, i);
      found := found[guards[i].kind := guards[i]];
    }
    assert guards[..|guards|] == guards;
    ok := MappingGeneration in found && CodeBytes in found && ExecutionState in found && HelperAbi in found;
    AllKinds(guards, found);
  }

  lemma KindsGrow(guards: seq<Guard>, i: nat)
    requires i < |guards|
    ensures forall kind: GuardKind :: HasKind(guards[..i + 1], kind) <==> HasKind(guards[..i], kind) || guards[i].kind == kind
  {
    var more := guards[..i + 1];
    assert more[i] == guards[i];
    forall kind: GuardKind | HasKind(guards[..i], kind)
      ensures HasKind(more, kind)
    {
      var k :| 0 <= k < i && guards[..i][k].kind == kind;
      assert more[k].kind == kind;
    }
    forall kind: GuardKind | HasKind(more, kind) && guards[i].kind != kind
      ensures HasKind(guards[..i], kind)
    {
      var k :| 0 <= k < i + 1 && more[k].kind == kind;
      assert guards[..i][k].kind == kind;
    }
  }

  lemma AllKinds(guards: seq<Guard>, found: map<GuardKind, Guard>)
    requires forall k :: 0 <= k < |guards| ==> guards[k].kind in found
    requires forall kind: GuardKind :: kind in found ==> HasKind(guards, kind)
    ensures MappingGeneration in found && CodeBytes in found && ExecutionState in found && HelperAbi in found <==>
              forall kind: GuardKind :: HasKind(guards, kind)
    ensures MappingGeneration in found && CodeBytes in found && ExecutionState in found && HelperAbi in found ==>
              forall kind: GuardKind :: kind in found
  {
    forall kind: GuardKind | HasKind(guards, kind)
      ensures kind in found
    {}
    if MappingGeneration in found && CodeBytes in found && ExecutionState in found && HelperAbi in found {
      forall kind: GuardKind
        ensures kind in found
      {
        match kind {
          case MappingGeneration =>
          case CodeBytes =>
          case ExecutionState =>
          case HelperAbi =>
        }
      }
    }
  }

  method ValidateGuardProfile(r: Request, p: Profile, b: Block) returns (ok: bool)
    ensures ok <==> ProfileOk(r, p, b)
  {
    if r.instructions == [] || b.instructions == [] || |b.instructions| > |r.instructions| { return false; }
    if b.mappingGeneration != r.mappingGeneration || b.guestStart != r.instructions[0].address { return false; }
    var copied, code := CollectCode(r, p, b);
    if !copied { return false; }
    var complete, found := CollectGuards(b.guards);
    if !complete { return false; }
    ok := && Scalar(found[MappingGeneration], r.mappingGeneration, MAX_WORD)
          && Scalar(found[HelperAbi], p.helperAbiVersion, MAX_WORD)
          && Scalar(found[ExecutionState], r.executionState, p.executionStateMask)
          && (var g := found[CodeBytes];
              g.subject == r.instructions[0].address && g.expected == 0 && g.mask == MAX_WORD && g.bytes == code);
    GuardsAgree(r, p, code, b.guards, found);
  }

  lemma GuardsAgree(r: Request, p: Profile, code: seq<Byte>, guards: seq<Guard>, found: map<GuardKind, Guard>)
    requires r.instructions != []
    requires forall kind: GuardKind :: kind in found && HasKind(guards, kind)
    requires forall i :: 0 <= i < |guards| ==> found[guards[i].kind] == guards[i]
    ensures (forall i :: 0 <= i < |guards| ==> GuardMatches(r, p, code, guards[i])) <==>
              && GuardMatches(r, p, code, found[MappingGeneration]) && GuardMatches(r, p, code, found[HelperAbi])
              && GuardMatches(r, p, code, found[ExecutionState]) && GuardMatches(r, p, code, found[CodeBytes])
    ensures forall kind: GuardKind :: found[kind].kind == kind
  {
    forall kind: GuardKind
      ensures found[kind].kind == kind && found[kind] in guards
    {
      assert HasKind(guards, kind);
    }
  }

  // ----- The code guard covers the block without a gap -----

  /** Address `a` belongs to instruction `i`. */
  predicate Inside(x: Instruction, a: int) {
    x.address <= a < x.address + x.length
  }

  /** In a contiguous block the copied bytes of the first `n` instructions are
      as long as the addresses they span, and byte `a` is the source byte of
      the instruction that `a` belongs to. */
  lemma {:induction false} CodeSpans(r: Request, p: Profile, b: Block, n: nat)
    requires MatchesSource(r, p, b) && Contiguous(b.instructions) && b.guestStart == b.instructions[0].address
    requires n <= |b.instructions|
    ensures n > 0 ==> b.guestStart + |CodeOf(r.instructions, n)| == b.instructions[n - 1].address + b.instructions[n - 1].length
    ensures n == 0 ==> CodeOf(r.instructions, n) == []
    ensures forall i, a :: 0 <= i < n && Inside(b.instructions[i], a) ==>
              0 <= a - b.guestStart < |CodeOf(r.instructions, n)| &&
              CodeOf(r.instructions, n)[a - b.guestStart] == r.instructions[i].bytes[a - b.instructions[i].address]
    ensures forall a :: b.guestStart <= a < b.guestStart + |CodeOf(r.instructions, n)| ==> Belongs(b, n, a)
  {
    if n > 0 {
      CodeSpans(r, p, b, n - 1);
      var front, x := CodeOf(r.instructions, n - 1), b.instructions[n - 1];
      assert b.guestStart + |front| == x.address by {
        if n > 1 { assert b.instructions[n - 2 + 1].address == b.instructions[n - 2].address + b.instructions[n - 2].length; }
      }
      forall a | b.guestStart <= a < b.guestStart + |CodeOf(r.instructions, n)|
        ensures Belongs(b, n, a)
      {
        if a < b.guestStart + |front| {
          assert Belongs(b, n - 1, a);
        } else {
          assert Inside(b.instructions[n - 1], a);
        }
      }
    }
  }

  ghost predicate Belongs(b: Block, n: nat, a: int)
    requires n <= |b.instructions|
  {
    exists i :: 0 <= i < n && Inside(b.instructions[i], a)
  }

  /** When the validator and the guard profile both accept, the one code guard
      covers exactly the guest range of the block, and each of its bytes is the
      copied source byte at that address. */
  lemma CodeGuardCoversBlock(r: Request, p: Profile, b: Block, g: Guard, a: int)
    requires WellFormed(b) && ProfileOk(r, p, b) && g in b.guards && g.kind == CodeBytes
    ensures g.subject == b.guestStart && g.subject + |g.bytes| - 1 == b.guestEnd
    ensures b.guestStart <= a <= b.guestEnd <==> exists i :: 0 <= i < |b.instructions| && Inside(b.instructions[i], a)
    ensures forall i :: 0 <= i < |b.instructions| && Inside(b.instructions[i], a) ==>
              0 <= a - b.guestStart < |g.bytes| &&
              g.bytes[a - b.guestStart] == r.instructions[i].bytes[a - b.instructions[i].address]
  {
    CodeSpans(r, p, b, |b.instructions|);
    assert g.bytes == CodeOf(r.instructions, |b.instructions|);
    if b.guestStart <= a <= b.guestEnd {
      assert Belongs(b, |b.instructions|, a);
    }
  }

  // ----- Host limits -----

  function GuardBytes(guards: seq<Guard>): nat {
    if guards == [] then 0 else GuardBytes(guards[..|guards| - 1]) + |guards[|guards| - 1].bytes|
  }

  function GuestBytes(xs: seq<Instruction>): nat {
    if xs == [] then 0 else GuestBytes(xs[..|xs| - 1]) + xs[|xs| - 1].length
  }

  /** No value ID an instruction names exceeds the host's limit. */
  predicate FewValues(op: Operation) {
    && (op.result.Some? ==> op.result.value <= 64)
    && (forall i :: 0 <= i < |op.operands| && op.operands[i].kind == Value ==> op.operands[i].payload % 0x1_0000_0000 <= 64)
  }

  predicate InstructionLimits(x: Instruction) {
    && x.cyclesNotTaken <= 1_000_000 && x.cyclesTaken <= 1_000_000 && |x.operations| <= 64
    && forall k :: 0 <= k < |x.operations| ==> |x.operations[k].operands| <= 8 && FewValues(x.operations[k])
  }

  ghost predicate WithinLimits(b: Block) {
    && 0 < |b.instructions| <= 16 && |b.guards| <= 16
    && GuardBytes(b.guards) <= 48 && GuestBytes(b.instructions) <= 48
    && forall i :: 0 <= i < |b.instructions| ==> InstructionLimits(b.instructions[i])
  }

  lemma {:induction false} GuardBytesGrow(guards: seq<Guard>, n: nat)
    requires n <= |guards|
    ensures GuardBytes(guards[..n]) <= GuardBytes(guards)
    decreases |guards|
  {
    if n < |guards| {
      assert guards[..|guards| - 1][..n] == guards[..n];
      GuardBytesGrow(guards[..|guards| - 1], n);
    } else {
      assert guards[..n] == guards;
    }
  }

  lemma {:induction false} GuestBytesGrow(xs: seq<Instruction>, n: nat)
    requires n <= |xs|
    ensures GuestBytes(xs[..n]) <= GuestBytes(xs)
    decreases |xs|
  {
    if n < |xs| {
      assert xs[..|xs| - 1][..n] == xs[..n];
      GuestBytesGrow(xs[..|xs| - 1], n);
    } else {
      assert xs[..n] == xs;
    }
  }

  method CheckGuardBytes(guards: seq<Guard>) returns (ok: bool)
    ensures ok <==> GuardBytes(guards) <= MAX_GUEST_BYTES
  {
    var guardBytes := 0;
    for i := 0 to |guards|
      invariant guardBytes == GuardBytes(guards[..i]) <= MAX_GUEST_BYTES
    {
      assert guards[..i + 1][..i] == guards[..i];
      GuardBytesGrow(guards, i + 1);
      if |guards[i].bytes| > MAX_GUEST_BYTES - guardBytes { return false; }
      guardBytes := guardBytes + |guards[i].bytes|;
    }
    assert guards[..|guards|] == guards;
    ok := true;
  }

  /** One operation: its operand count, and its value IDs folded into the maximum. */
  method CheckOperationLimits(op: Operation, maxValue: nat) returns (ok: bool, maxValue': nat)
    ensures ok <==> |op.operands| <= MAX_OPERANDS
    ensures ok ==> (maxValue' <= MAX_VALUES <==> maxValue <= MAX_VALUES && FewValues(op))
  {
    maxValue' := maxValue;
    if |op.operands| > MAX_OPERANDS { return false, maxValue'; }
    if op.result.Some? { maxValue' := Larger(maxValue', op.result.value); }
    for i := 0 to |op.operands|
      invariant maxValue' <= MAX_VALUES <==>
                  && maxValue <= MAX_VALUES && (op.result.Some? ==> op.result.value <= MAX_VALUES)
                  && forall j :: 0 <= j < i && op.operands[j].kind == Value ==> op.operands[j].payload % 0x1_0000_0000 <= MAX_VALUES
    {
      if op.operands[i].kind == Value { maxValue' := Larger(maxValue', op.operands[i].payload % 0x1_0000_0000); }
    }
    ok := true;
  }

  method CheckInstructionLimits(x: Instruction) returns (ok: bool)
    ensures ok <==> InstructionLimits(x)
  {
    if x.cyclesNotTaken > MAX_CYCLES || x.cyclesTaken > MAX_CYCLES { return false; }
    if |x.operations| > MAX_OPS { return false; }
    var maxValue: nat := 0;
    for k := 0 to |x.operations|
      invariant forall j :: 0 <= j < k ==> |x.operations[j].operands| <= MAX_OPERANDS
      invariant maxValue <= MAX_VALUES <==> forall j :: 0 <= j < k ==> FewValues(x.operations[j])
    {
      ok, maxValue := CheckOperationLimits(x.operations[k], maxValue);
      if !ok { return; }
    }
    ok := maxValue <= MAX_VALUES;
  }

  method CheckLimits(b: Block) returns (ok: bool)
    ensures ok <==> WithinLimits(b)
  {
    var xs := b.instructions;
    if xs == [] || |b.guards| > MAX_GUARDS || |xs| > MAX_INSTRUCTIONS { return false; }
    ok := CheckGuardBytes(b.guards);
    if !ok { return; }
    var guestBytes := 0;
    for i := 0 to |xs|
      invariant guestBytes == GuestBytes(xs[..i]) <= MAX_GUEST_BYTES
      invariant forall j :: 0 <= j < i ==> InstructionLimits(xs[j])
    {
      assert xs[..i + 1][..i] == xs[..i];
      GuestBytesGrow(xs, i + 1);
      if xs[i].length > MAX_GUEST_BYTES - guestBytes { return false; }
      ok := CheckInstructionLimits(xs[i]);
      if !ok { return; }
      guestBytes := guestBytes + xs[i].length;
    }
    assert xs[..|xs|] == xs;
    ok := guestBytes <= MAX_GUEST_BYTES;
  }

  // ----- Prepare, then execute -----

  /** A block shared by pointer: execution insists on the very block it prepared. */
  class Shared {
    const block: Block

    constructor (block: Block)
      ensures this.block == block
    {
      this.block := block;
    }
  }

  /** What a caller may hold: the service's own prepared artifact, or another one. */
  datatype Artifact = Portable(block: Shared) | Prepared(block: Shared, compiled: Artifact) | Foreign

  datatype Preparation = Ready(artifact: Artifact) | Fallback

  /** `GuardRejected` is the service's `false`; `Fatal` stands for its exceptions. */
  datatype Outcome = Executed(result: Result) | GuardRejected | Fatal

  datatype Adapter = Adapter(architectureId: nat, irAbiVersion: nat)

  /** What the core adapters answer during one preparation; a stage that throws
      answers no. */
  datatype Answers = Answers(coreAccepts: bool, adapterAccepts: bool, stateAccepts: bool)

  ghost predicate PreparedFrom(a: Artifact, b: Shared) {
    a == Prepared(b, Portable(b))
  }

  class Service {
    const adapter: Adapter
    const hostValidator: Adapter
    const interpreter: Interpreter

    constructor (adapter: Adapter, hostValidator: Adapter)
      ensures this.adapter == adapter && this.hostValidator == hostValidator
      ensures fresh(interpreter)
    {
      this.adapter := adapter;
      this.hostValidator := hostValidator;
      interpreter := new Interpreter();
    }

    /** The portable backend's own acceptance of an architecture and ABI. */
    predicate Compatible() {
      && adapter.irAbiVersion == 1
      && hostValidator.architectureId == adapter.architectureId && hostValidator.irAbiVersion == 1
      && adapter.architectureId != 0
    }

    /** Every stage must accept; the core stage includes the guard profile. */
    method Prepare(r: Request, p: Profile, b: Shared?, answers: Answers) returns (x: Preparation)
      ensures x.Ready? <==>
                && adapter.irAbiVersion == 1 && hostValidator.irAbiVersion == 1
                && hostValidator.architectureId == adapter.architectureId != 0
                && b != null && WithinLimits(b.block) && WellFormed(b.block) && ProfileOk(r, p, b.block)
                && answers.coreAccepts && answers.adapterAccepts && answers.stateAccepts
      ensures x.Ready? ==> PreparedFrom(x.artifact, b)
    {
      if b == null { return Fallback; }
      if !Compatible() { return Fallback; }
      var limited := CheckLimits(b.block);
      if !limited { return Fallback; }
      var verdict := Validate(b.block);
      if verdict.Invalid? { return Fallback; }
      var profile := ValidateGuardProfile(r, p, b.block);
      if !profile || !answers.coreAccepts { return Fallback; }
      if !answers.adapterAccepts || !answers.stateAccepts { return Fallback; }
      var compiled := Compile(b);
      if compiled.Foreign? { return Fallback; }
      x := Ready(Prepared(b, compiled));
    }

    /** The backend validates once more, and never declines a block the service validated. */
    method Compile(b: Shared) returns (a: Artifact)
      ensures a == if WellFormed(b.block) then Portable(b) else Foreign
    {
      var verdict := Validate(b.block);
      a := if verdict.Valid? then Portable(b) else Foreign;
    }

    /** The portable backend; `None` is its `false`. */
    method Execute(a: Artifact, index: nat, host: Host) returns (threw: bool, result: Option<Result>)
      requires a.Portable? ==> forall i :: 0 <= i < |a.block.block.instructions| ==> Indexable(a.block.block.instructions[i])
      modifies interpreter, host
      ensures !a.Portable? || index >= |a.block.block.instructions| ==> !threw && result.None? && host.log == old(host.log)
      ensures a.Portable? && index < |a.block.block.instructions| ==>
                match Run(a.block.block.instructions[index], old(host.log), host.reply)
                case Some(m) => !threw && result == Some(m.result) && host.log == m.log
                case None => threw
    {
      if !a.Portable? || index >= |a.block.block.instructions| { return false, None; }
      var r;
      threw, r := interpreter.Execute(a.block.block.instructions[index], host);
      result := Some(r);
    }

    /** Executes one instruction of a prepared block. An artifact that is not prepared, one
        of another block, or an index out of range is fatal, and a rejected guard is not;
        both leave the host untouched. For the block it was prepared from and an index in
        range nothing fatal can happen, and the host sees exactly the
        instruction's meaning. */
    method TryExecute(b: Shared, a: Artifact, index: nat, stateRejects: bool, host: Host) returns (out: Outcome)
      requires a.Prepared? && a.compiled.Portable? ==>
                 forall i :: 0 <= i < |a.compiled.block.block.instructions| ==> Indexable(a.compiled.block.block.instructions[i])
      modifies interpreter, host
      ensures !a.Prepared? || a.block != b || index >= |b.block.instructions| ==> out.Fatal? && host.log == old(host.log)
      ensures out.GuardRejected? <==> a.Prepared? && a.block == b && index < |b.block.instructions| && stateRejects
      ensures out.GuardRejected? ==> host.log == old(host.log)
      ensures PreparedFrom(a, b) && WellFormed(b.block) && index < |b.block.instructions| ==>
                if stateRejects then out.GuardRejected?
                else
                  var x := b.block.instructions[index];
                  var meant := Means(x, old(host.log), host.reply);
                  && out.Executed? && host.log == meant.log
                  && out.result.retirementReached && out.result.branchTaken == meant.taken
                  && (out.result.exitRequested <==> Exited(x.operations, |x.operations|))
                  && (out.result.cycleCondition <==> x.takenCondition.Some? && Lookup(meant.env, x.takenCondition.value) == 1)
    {
      if !a.Prepared? || a.block != b || index >= |a.block.block.instructions| { return Fatal; }
      if stateRejects { return GuardRejected; }
      var threw, result := Execute(a.compiled, index, host);
      if PreparedFrom(a, b) && WellFormed(b.block) {
        assert InstructionOk(b.block.instructions[index]);
        AcceptedRunsAsMeant(b.block.instructions[index], old(host.log), host.reply);
      }
      if threw || result.None? || !result.value.retirementReached { return Fatal; }
      out := Executed(result.value);
    }
  }
}
