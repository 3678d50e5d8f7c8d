/** The audio output transport as atomic steps of four kinds of lane: the
    emulation thread, the render worker, device callbacks and the control lane. */
module AudioTransport {
  import opened Wrappers

  const SOURCE_SLOTS := 9

  // ----- State -----

  /** A source block, stamped with the lifecycle epoch at submission. */
  datatype Source = Source(id: nat, stamp: nat)

  /** A ready block in its ring slot. */
  datatype Ready = Ready(id: nat, epoch: nat)

  /** A source block handed to the engine, with the epoch of that moment. */
  datatype Appended = Appended(block: Source, at: nat)

  /** The ready ring. `produced` and `drained` list the blocks published and
      drained since the last reset; the code keeps no such lists. */
  datatype ReadyRing = ReadyRing(slots: seq<Ready>, readIndex: nat, writeIndex: nat, produced: seq<nat>, drained: seq<nat>)

  /** The source ring, with the list of blocks it holds. */
  datatype SourceRing = SourceRing(slots: seq<Source>, readIndex: nat, writeIndex: nat, pending: seq<Source>)

  /** The drain-admission word: an active and a suspended bit. */
  datatype Gate = Gate(active: bool, suspended: bool)

  datatype Owner = Free | WorkerLane | ControlLane

  datatype Locks = Locks(production: Owner, sourceDrain: Owner)

  datatype Counts = Counts(requested: nat, ready: nat, silence: nat, priming: nat)

  datatype Emulation = Quiet | Stamped(block: Source) | HasRoom(slot: nat, block: Source) | Filled(slot: nat, block: Source)

  /** `left` counts the blocks between the read index and the write index the
      worker saw when it started draining. */
  datatype Worker =
    | Idle | Locked
    | Draining(read: nat, write: nat, left: nat)
    | Taken(read: nat, write: nat, left: nat, block: Source)
    | Comparing(read: nat, write: nat, left: nat, block: Source)
    | Appending(read: nat, write: nat, left: nat, block: Source)
    | Drained | Room(slot: nat) | Rendered(slot: nat) | EpochWritten(slot: nat) | Published

  datatype Callback =
    | Out | Begun(n: nat) | Inside(n: nat) | PrimedSeen(n: nat) | Unpriming
    | NonEmpty(n: nat, slot: nat) | CopiedOut(slot: nat, id: nat) | Leaving

  datatype Control =
    | Calm | HasProduction | HasBoth | Bumped | Suspended | Waited | Unprimed
    | ReadCleared | WriteCleared | Reopened | Snapshot(write: nat, count: nat)

  datatype State = State(
    ring: ReadyRing, gate: Gate, primed: bool, epoch: nat, source: SourceRing, locks: Locks, counts: Counts,
    emulation: Emulation, worker: Worker, callbacks: seq<Callback>, control: Control,
    chunk: nat, nextId: nat, engine: seq<Appended>)

  // ----- Ring arithmetic -----

  /** The index `i`, at most one lap ahead, brought back into the ring. */
  function Wrap(i: nat, size: nat): nat {
    if i >= size then i - size else i
  }

  function Next(i: nat, size: nat): nat {
    if i + 1 == size then 0 else i + 1
  }

  function Least(a: nat, b: nat): nat {
    if a < b then a else b
  }

  /** The depth as the code computes it from the two indices. */
  function Depth(r: ReadyRing): int {
    if r.writeIndex >= r.readIndex then r.writeIndex - r.readIndex else |r.slots| - (r.readIndex - r.writeIndex)
  }

  function PrefillTarget(r: ReadyRing): int {
    if |r.slots| < 3 then |r.slots| - 1 else 2
  }

  // ----- Steps -----

  datatype EmulationAction = Stamp(id: nat) | CheckRoom | Fill | Publish

  datatype WorkerAction =
    | Lock | Drain | Take | StoreRead | Compare | Append
    | Starve | FindRoom | Render | StampEpoch | PublishReady | Prime

  datatype CallbackAction = Begin(n: nat) | Enter | CheckPrimed | Load | Unprime | Copy | Advance | Leave

  datatype ControlAction =
    | LockProduction | LockSource | Bump | Suspend | Wait | ClearPrimed
    | ClearRead | ClearWrite | Reopen | LoadSource | SkipSource

  datatype Action = Emu(e: EmulationAction) | Work(w: WorkerAction) | Call(i: nat, c: CallbackAction) | Ctl(k: ControlAction)

  predicate RingShaped(r: ReadyRing) {
    |r.slots| >= 2 && r.readIndex < |r.slots| && r.writeIndex < |r.slots|
  }

  predicate SourceShaped(r: SourceRing) {
    |r.slots| == SOURCE_SLOTS && r.readIndex < SOURCE_SLOTS && r.writeIndex < SOURCE_SLOTS
  }

  /** Submission: stamp with the epoch, test for room, fill the slot, publish. */
  function EmulationStep(s: State, a: EmulationAction): Option<State>
    requires SourceShaped(s.source)
  {
    match (a, s.emulation)
    case (Stamp(id), Quiet) => Some(s.(emulation := Stamped(Source(id, s.epoch))))
    case (CheckRoom, Stamped(block)) =>
      if Next(s.source.writeIndex, SOURCE_SLOTS) == s.source.readIndex then Some(s.(emulation := Quiet))
      else Some(s.(emulation := HasRoom(s.source.writeIndex, block)))
    case (Fill, HasRoom(slot, block)) =>
      if slot >= SOURCE_SLOTS then None
      else Some(s.(source := s.source.(slots := s.source.slots[slot := block]), emulation := Filled(slot, block)))
    case (Publish, Filled(slot, block)) =>
      Some(s.(source := s.source.(writeIndex := Next(slot, SOURCE_SLOTS), pending := s.source.pending + [block]), emulation := Quiet))
    case _ => None
  }

  /** One production: drain the sources under both locks, then render into the
      free slot, write its epoch, publish it and look at the depth. */
  function WorkerStep(s: State, a: WorkerAction): Option<State>
    requires SourceShaped(s.source) && RingShaped(s.ring)
  {
    match (a, s.worker)
    case (Lock, Idle) =>
      if s.locks.production == Free then Some(s.(locks := s.locks.(production := WorkerLane), worker := Locked)) else None
    case (Drain, Locked) =>
      if s.locks.sourceDrain == Free
      then Some(s.(locks := s.locks.(sourceDrain := WorkerLane),
                   worker := Draining(s.source.readIndex, s.source.writeIndex, |s.source.pending|)))
      else None
    case (Take, Draining(read, write, left)) =>
      if read == write then Some(s.(locks := s.locks.(sourceDrain := Free), worker := Drained))
      else if left > 0 && read < SOURCE_SLOTS
      then Some(s.(worker := Taken(Next(read, SOURCE_SLOTS), write, left - 1, s.source.slots[read])))
      else None
    case (StoreRead, Taken(read, write, left, block)) =>
      if s.source.pending == [] then None
      else Some(s.(source := s.source.(readIndex := read, pending := s.source.pending[1..]),
                   worker := Comparing(read, write, left, block)))
    case (Compare, Comparing(read, write, left, block)) =>
      if block.stamp != s.epoch then Some(s.(worker := Draining(read, write, left)))
      else Some(s.(worker := Appending(read, write, left, block)))
    case (Append, Appending(read, write, left, block)) =>
      Some(s.(engine := s.engine + [Appended(block, s.epoch)], worker := Draining(read, write, left)))
    case (Starve, Drained) => Some(s.(locks := s.locks.(production := Free), worker := Idle))
    case (FindRoom, Drained) =>
      if Next(s.ring.writeIndex, |s.ring.slots|) == s.ring.readIndex
      then Some(s.(locks := s.locks.(production := Free), worker := Idle))
      else Some(s.(worker := Room(s.ring.writeIndex)))
    case (Render, Room(slot)) =>
      if slot >= |s.ring.slots| then None
      else Some(s.(ring := s.ring.(slots := s.ring.slots[slot := Ready(s.nextId, s.ring.slots[slot].epoch)]),
                   nextId := s.nextId + 1, worker := Rendered(slot)))
    case (StampEpoch, Rendered(slot)) =>
      if slot >= |s.ring.slots| then None
      else Some(s.(ring := s.ring.(slots := s.ring.slots[slot := Ready(s.ring.slots[slot].id, s.epoch)]), worker := EpochWritten(slot)))
    case (PublishReady, EpochWritten(slot)) =>
      if slot >= |s.ring.slots| then None
      else Some(s.(ring := s.ring.(writeIndex := Next(slot, |s.ring.slots|), produced := s.ring.produced + [s.ring.slots[slot].id]),
                   worker := Published))
    case (Prime, Published) =>
      Some(s.(primed := s.primed || (PrefillTarget(s.ring) > 0 && Depth(s.ring) >= PrefillTarget(s.ring)),
              locks := s.locks.(production := Free), worker := Idle))
    case _ => None
  }

  /** A device callback asked for `n` samples. It never waits: a closed gate
      means silence. */
  function CallbackStep(s: State, i: nat, a: CallbackAction): Option<State>
    requires RingShaped(s.ring) && i < |s.callbacks|
  {
    match (a, s.callbacks[i])
    case (Begin(n), Out) =>
      Some(s.(callbacks := s.callbacks[i := Begun(n)], counts := s.counts.(requested := s.counts.requested + n)))
    case (Enter, Begun(n)) =>
      if s.gate.active || s.gate.suspended
      then Some(s.(callbacks := s.callbacks[i := Out], counts := s.counts.(priming := s.counts.priming + n)))
      else Some(s.(callbacks := s.callbacks[i := Inside(n)], gate := s.gate.(active := true)))
    case (CheckPrimed, Inside(n)) =>
      if n == 0 then Some(s.(callbacks := s.callbacks[i := Leaving]))
      else if !s.primed
      then Some(s.(callbacks := s.callbacks[i := Leaving], counts := s.counts.(priming := s.counts.priming + n)))
      else Some(s.(callbacks := s.callbacks[i := PrimedSeen(n)]))
    case (Load, PrimedSeen(n)) =>
      if s.ring.readIndex == s.ring.writeIndex
      then Some(s.(callbacks := s.callbacks[i := Unpriming], counts := s.counts.(silence := s.counts.silence + n)))
      else Some(s.(callbacks := s.callbacks[i := NonEmpty(n, s.ring.readIndex)]))
    case (Unprime, Unpriming) => Some(s.(callbacks := s.callbacks[i := Leaving], primed := false))
    case (Copy, NonEmpty(n, slot)) =>
      if slot >= |s.ring.slots| then None
      else
        var copy := Least(n, s.chunk);
        Some(s.(callbacks := s.callbacks[i := CopiedOut(slot, s.ring.slots[slot].id)],
                counts := s.counts.(ready := s.counts.ready + copy, silence := s.counts.silence + (n - copy))))
    case (Advance, CopiedOut(slot, id)) =>
      Some(s.(callbacks := s.callbacks[i := Leaving],
              ring := s.ring.(readIndex := Next(slot, |s.ring.slots|), drained := s.ring.drained + [id])))
    case (Leave, Leaving) => Some(s.(callbacks := s.callbacks[i := Out], gate := s.gate.(active := false)))
    case _ => None
  }

  /** An epoch bump: both locks, the new epoch, the gate closed and awaited, the
      ring reset, the gate word stored to zero, queued sources skipped. */
  function ControlStep(s: State, a: ControlAction): Option<State> {
    match (a, s.control)
    case (LockProduction, Calm) =>
      if s.locks.production == Free
      then Some(s.(locks := s.locks.(production := ControlLane), control := HasProduction)) else None
    case (LockSource, HasProduction) =>
      if s.locks.sourceDrain == Free
      then Some(s.(locks := s.locks.(sourceDrain := ControlLane), control := HasBoth)) else None
    case (Bump, HasBoth) => Some(s.(epoch := s.epoch + 1, control := Bumped))
    case (Suspend, Bumped) => Some(s.(gate := s.gate.(suspended := true), control := Suspended))
    case (Wait, Suspended) => if s.gate.active then None else Some(s.(control := Waited))
    case (ClearPrimed, Waited) => Some(s.(primed := false, control := Unprimed))
    case (ClearRead, Unprimed) =>
      Some(s.(ring := s.ring.(readIndex := 0, produced := [], drained := []), control := ReadCleared))
    case (ClearWrite, ReadCleared) => Some(s.(ring := s.ring.(writeIndex := 0), control := WriteCleared))
    case (Reopen, WriteCleared) => Some(s.(gate := Gate(false, false), control := Reopened))
    case (LoadSource, Reopened) => Some(s.(control := Snapshot(s.source.writeIndex, |s.source.pending|)))
    case (SkipSource, Snapshot(write, count)) =>
      if count > |s.source.pending| then None
      else Some(s.(source := s.source.(readIndex := write, pending := s.source.pending[count..]),
                   locks := Locks(Free, Free), control := Calm))
    case _ => None
  }

  /** One atomic step of some lane, if that lane can take it. */
  function Step(s: State, a: Action): Option<State>
    requires RingShaped(s.ring) && SourceShaped(s.source)
  {
    match a
    case Emu(e) => EmulationStep(s, e)
    case Work(w) => WorkerStep(s, w)
    case Call(i, c) => if i < |s.callbacks| then CallbackStep(s, i, c) else None
    case Ctl(k) => ControlStep(s, k)
  }

  // ----- Invariants -----

  /** A callback that has entered the gate and not left it. */
  predicate InGate(c: Callback) {
    !c.Out? && !c.Begun?
  }

  predicate Resetting(c: Control) {
    c.Waited? || c.Unprimed? || c.ReadCleared? || c.WriteCleared?
  }

  /** The gate word: one drain at most, and it owns the active bit; the
      suspended bit belongs to the control lane, which resets only while no
      drain is active. */
  ghost predicate Gated(gate: Gate, cs: seq<Callback>, control: Control) {
    && (forall i, j :: 0 <= i < j < |cs| ==> !(InGate(cs[i]) && InGate(cs[j])))
    && (gate.active <==> SomeInGate(cs))
    && (gate.suspended <==> control.Suspended? || Resetting(control))
    && (Resetting(control) ==> !gate.active)
  }

  ghost predicate SomeInGate(cs: seq<Callback>) {
    exists i :: 0 <= i < |cs| && InGate(cs[i])
  }

  predicate DrainsSource(w: Worker) {
    w.Draining? || w.Taken? || w.Comparing? || w.Appending?
  }

  /** Who holds which lock follows from where the lanes are. */
  predicate Locked'(locks: Locks, worker: Worker, control: Control) {
    && (locks.production == WorkerLane <==> !worker.Idle?)
    && (locks.production == ControlLane <==> !control.Calm?)
    && (locks.sourceDrain == WorkerLane <==> DrainsSource(worker))
    && (locks.sourceDrain == ControlLane <==> !control.Calm? && !control.HasProduction?)
  }

  function Queued(r: ReadyRing): int {
    |r.produced| - |r.drained|
  }

  /** The `k`-th oldest slot of the ring. */
  function Nth(r: ReadyRing, k: nat): Ready
    requires RingShaped(r) && k < |r.slots|
  {
    r.slots[Wrap(r.readIndex + k, |r.slots|)]
  }

  /** The ready ring holds exactly what was produced and not yet drained, in order. */
  ghost predicate Fifo(r: ReadyRing, control: Control) {
    && RingShaped(r) && r.drained <= r.produced && Queued(r) < |r.slots|
    && (control.ReadCleared? ==> Queued(r) == 0 && r.readIndex == 0)
    && (!control.ReadCleared? ==> r.writeIndex == Wrap(r.readIndex + Queued(r), |r.slots|))
    && (forall k :: 0 <= k < Queued(r) ==> Nth(r, k).id == r.produced[|r.drained| + k])
  }

  /** The worker writes only the slot just past the queue, and only when it is free. */
  predicate Writes(r: ReadyRing, worker: Worker) {
    worker.Room? || worker.Rendered? || worker.EpochWritten? ==>
      worker.slot == r.writeIndex && Queued(r) < |r.slots| - 1
  }

  /** A callback with a slot in hand holds the oldest queued block. */
  predicate Reads(r: ReadyRing, c: Callback) {
    && (c.NonEmpty? || c.CopiedOut? ==> c.slot == r.readIndex && 0 < Queued(r))
    && (c.CopiedOut? ==> 0 < Queued(r) && c.id == r.produced[|r.drained|])
  }

  ghost predicate AllRead(r: ReadyRing, cs: seq<Callback>) {
    forall i :: 0 <= i < |cs| ==> Reads(r, cs[i])
  }

  predicate Stale(c: Control) {
    c.Bumped? || c.Suspended? || c.Waited? || c.Unprimed?
  }

  /** Outside a bump in progress every queued ready block carries the current epoch. */
  ghost predicate Current(r: ReadyRing, epoch: nat, worker: Worker, control: Control)
    requires RingShaped(r) && Queued(r) < |r.slots|
  {
    && (!Stale(control) ==> forall k :: 0 <= k < Queued(r) ==> Nth(r, k).epoch == epoch)
    && (worker.EpochWritten? ==> worker.slot < |r.slots| && r.slots[worker.slot].epoch == epoch)
  }

  /** Every block the engine was given carried the epoch of that moment. */
  ghost predicate Barrier(engine: seq<Appended>, epoch: nat, worker: Worker) {
    && (forall k :: 0 <= k < |engine| ==> engine[k].block.stamp == engine[k].at)
    && (worker.Appending? ==> worker.block.stamp == epoch)
  }

  function NthSourceSlot(r: SourceRing, k: nat): nat {
    Wrap(r.readIndex + k, SOURCE_SLOTS)
  }

  function NthSource(r: SourceRing, k: nat): Source
    requires SourceShaped(r) && k < SOURCE_SLOTS
  {
    r.slots[NthSourceSlot(r, k)]
  }

  /** The source ring holds exactly the blocks published and not yet taken. */
  ghost predicate SourceFifo(r: SourceRing) {
    && SourceShaped(r) && |r.pending| < SOURCE_SLOTS
    && r.writeIndex == Wrap(r.readIndex + |r.pending|, SOURCE_SLOTS)
    && (forall k :: 0 <= k < |r.pending| ==> NthSource(r, k) == r.pending[k])
  }

  predicate Submits(r: SourceRing, e: Emulation)
    requires SourceShaped(r)
  {
    && (e.HasRoom? || e.Filled? ==> e.slot == r.writeIndex && |r.pending| < SOURCE_SLOTS - 1)
    && (e.Filled? ==> e.slot < SOURCE_SLOTS && r.slots[e.slot] == e.block)
  }

  predicate Takes(r: SourceRing, w: Worker) {
    && (w.Draining? || w.Comparing? || w.Appending? ==>
          w.read == r.readIndex && w.left <= |r.pending| && w.write == Wrap(r.readIndex + w.left, SOURCE_SLOTS))
    && (w.Taken? ==>
          && w.left + 1 <= |r.pending| && w.read == Next(r.readIndex, SOURCE_SLOTS)
          && w.write == Wrap(r.readIndex + w.left + 1, SOURCE_SLOTS) && w.block == r.pending[0])
  }

  predicate Skips(r: SourceRing, c: Control) {
    c.Snapshot? ==> c.count <= |r.pending| && c.write == Wrap(r.readIndex + c.count, SOURCE_SLOTS)
  }

  /** Samples a callback has asked for and not yet been given, in any form. */
  function Owed(c: Callback): nat {
    if c.Begun? || c.Inside? || c.PrimedSeen? || c.NonEmpty? then c.n else 0
  }

  function Outstanding(cs: seq<Callback>): nat {
    if cs == [] then 0 else Outstanding(cs[..|cs| - 1]) + Owed(cs[|cs| - 1])
  }

  /** Every requested sample is ready audio, silence, priming silence or still owed. */
  ghost predicate Accounted(counts: Counts, cs: seq<Callback>) {
    counts.requested == counts.ready + counts.silence + counts.priming + Outstanding(cs)
  }

  ghost predicate Inv(s: State) {
    && RingShaped(s.ring) && SourceShaped(s.source)
    && Gated(s.gate, s.callbacks, s.control)
    && Locked'(s.locks, s.worker, s.control)
    && Fifo(s.ring, s.control) && Writes(s.ring, s.worker) && AllRead(s.ring, s.callbacks)
    && Current(s.ring, s.epoch, s.worker, s.control)
    && Barrier(s.engine, s.epoch, s.worker)
    && SourceFifo(s.source) && Submits(s.source, s.emulation) && Takes(s.source, s.worker) && Skips(s.source, s.control)
    && Accounted(s.counts, s.callbacks)
  }

  // ----- The emulation lane -----

  lemma EmulationKeepsInv(s: State, a: EmulationAction)
    requires Inv(s) && EmulationStep(s, a).Some?
    ensures Inv(EmulationStep(s, a).value)
  {
    hide Gated, Fifo, AllRead, Current, Barrier, Accounted, Locked', Writes;
  }

  // ----- The worker -----

  predicate DrainingAction(a: WorkerAction) {
    a.Lock? || a.Drain? || a.Take? || a.StoreRead? || a.Compare? || a.Append? || a.Starve?
  }

  lemma DrainingKeepsInv(s: State, a: WorkerAction)
    requires Inv(s) && DrainingAction(a) && WorkerStep(s, a).Some?
    ensures Inv(WorkerStep(s, a).value)
  {
    hide Inv, WorkerStep;
    if a.Drain? || a.Take? || a.StoreRead? {
      TakingKeepsInv(s, a);
    } else {
      JudgingKeepsInv(s, a);
    }
  }

  lemma TakingKeepsInv(s: State, a: WorkerAction)
    requires Inv(s) && WorkerStep(s, a).Some? && (a.Drain? || a.Take? || a.StoreRead?)
    ensures Inv(WorkerStep(s, a).value)
  {
    hide Gated, Fifo, AllRead, Accounted, SourceFifo, Nth;
    SourceFacts(s.source);
    var s' := WorkerStep(s, a).value;
    if a.StoreRead? {
      SkipDropsFront(s.source, 1, s'.source);
    }
  }

  lemma JudgingKeepsInv(s: State, a: WorkerAction)
    requires Inv(s) && WorkerStep(s, a).Some? && (a.Lock? || a.Compare? || a.Append? || a.Starve?)
    ensures Inv(WorkerStep(s, a).value)
  {
    hide Gated, Fifo, AllRead, Accounted, SourceFifo, Submits, Skips, Nth;
  }

  lemma SourceFacts(r: SourceRing)
    requires SourceFifo(r)
    ensures |r.pending| < SOURCE_SLOTS && r.writeIndex == Wrap(r.readIndex + |r.pending|, SOURCE_SLOTS)
    ensures |r.pending| > 0 ==> r.slots[r.readIndex] == r.pending[0]
  {
    if |r.pending| > 0 {
      assert NthSource(r, 0) == r.pending[0];
    }
  }

  /** Writing the free slot past the queue disturbs nothing queued. */
  lemma WriteKeepsQueue(r: ReadyRing, v: Ready, control: Control, r': ReadyRing)
    requires Fifo(r, control) && Queued(r) < |r.slots| - 1 && !control.ReadCleared?
    requires r' == r.(slots := r.slots[r.writeIndex := v])
    ensures Fifo(r', control)
    ensures forall k :: 0 <= k < Queued(r) ==> Nth(r', k) == Nth(r, k)
  {
    forall k | 0 <= k < Queued(r)
      ensures Nth(r', k) == Nth(r, k) && Nth(r', k).id == r'.produced[|r'.drained| + k]
    {
      assert Nth(r, k).id == r.produced[|r.drained| + k];
    }
  }

  lemma PublishExtendsQueue(r: ReadyRing, control: Control, r': ReadyRing)
    requires Fifo(r, control) && Queued(r) < |r.slots| - 1 && !control.ReadCleared?
    requires r' == r.(writeIndex := Next(r.writeIndex, |r.slots|), produced := r.produced + [r.slots[r.writeIndex].id])
    ensures Fifo(r', control) && Queued(r') == Queued(r) + 1
    ensures forall k :: 0 <= k < Queued(r) ==> Nth(r', k) == Nth(r, k)
    ensures Nth(r', Queued(r)) == r.slots[r.writeIndex]
  {
    forall k | 0 <= k < Queued(r')
      ensures k < Queued(r) ==> Nth(r', k) == Nth(r, k)
      ensures Nth(r', k).id == r'.produced[|r'.drained| + k]
    {
      assert k < Queued(r) ==> Nth(r, k).id == r.produced[|r.drained| + k];
    }
  }

  lemma GrowthKeepsReads(r: ReadyRing, r': ReadyRing, cs: seq<Callback>)
    requires AllRead(r, cs) && r.drained <= r.produced
    requires r'.readIndex == r.readIndex && r'.drained == r.drained && r.produced <= r'.produced
    ensures AllRead(r', cs)
  {
    forall i | 0 <= i < |cs|
      ensures Reads(r', cs[i])
    {
      assert Reads(r, cs[i]);
    }
  }

  lemma RoomMeansSpace(r: ReadyRing, control: Control)
    requires Fifo(r, control) && !control.ReadCleared?
    ensures r.drained <= r.produced && Queued(r) < |r.slots| && (Next(r.writeIndex, |r.slots|) != r.readIndex ==> Queued(r) < |r.slots| - 1)
  {
  }

  lemma ProducingKeepsInv(s: State, a: WorkerAction)
    requires Inv(s) && !DrainingAction(a) && WorkerStep(s, a).Some?
    ensures Inv(WorkerStep(s, a).value)
  {
    hide Gated, SourceFifo, Submits, Skips, Accounted, Nth, Fifo, AllRead;
    var s' := WorkerStep(s, a).value;
    RoomMeansSpace(s.ring, s.control);
    GrowthKeepsReads(s.ring, s'.ring, s.callbacks);
    match a {
      case Render => WriteKeepsQueue(s.ring, s'.ring.slots[s.ring.writeIndex], s.control, s'.ring);
      case StampEpoch => WriteKeepsQueue(s.ring, s'.ring.slots[s.ring.writeIndex], s.control, s'.ring);
      case PublishReady =>
        PublishExtendsQueue(s.ring, s.control, s'.ring);
        forall k | 0 <= k < Queued(s'.ring)
          ensures Nth(s'.ring, k).epoch == s.epoch
        {
          assert k < Queued(s.ring) ==> Nth(s.ring, k).epoch == s.epoch;
        }
      case _ =>
    }
  }

  lemma WorkerKeepsInv(s: State, a: WorkerAction)
    requires Inv(s) && WorkerStep(s, a).Some?
    ensures Inv(WorkerStep(s, a).value)
  {
    hide Inv, WorkerStep;
    if DrainingAction(a) {
      DrainingKeepsInv(s, a);
    } else {
      ProducingKeepsInv(s, a);
    }
  }

  // ----- Callbacks -----

  lemma {:induction false} OutstandingUpdate(cs: seq<Callback>, i: nat, c: Callback)
    requires i < |cs|
    ensures Outstanding(cs[i := c]) == Outstanding(cs) - Owed(cs[i]) + Owed(c)
    decreases |cs|
  {
    if i == |cs| - 1 {
      assert cs[i := c][..i] == cs[..i];
    } else {
      assert cs[i := c][..|cs| - 1] == cs[..|cs| - 1][i := c];
      OutstandingUpdate(cs[..|cs| - 1], i, c);
    }
  }

  /** A callback that passes the gate word in step with it, or not at all, keeps the gate. */
  lemma GateUpdate(gate: Gate, cs: seq<Callback>, control: Control, i: nat, c: Callback, gate': Gate)
    requires Gated(gate, cs, control) && i < |cs|
    requires
      || (InGate(c) == InGate(cs[i]) && gate' == gate)
      || (!InGate(cs[i]) && InGate(c) && gate == Gate(false, false) && gate' == Gate(true, false))
      || (InGate(cs[i]) && !InGate(c) && gate' == gate.(active := false))
    ensures Gated(gate', cs[i := c], control)
  {
    var cs' := cs[i := c];
    assert InGate(cs'[i]) ==> SomeInGate(cs');
    if SomeInGate(cs) {
      var j :| 0 <= j < |cs| && InGate(cs[j]);
      assert InGate(cs'[j]) ==> SomeInGate(cs');
      assert InGate(cs[i]) ==> i == j;
    }
    if SomeInGate(cs') {
      var j :| 0 <= j < |cs'| && InGate(cs'[j]);
      assert j != i ==> InGate(cs[j]) && SomeInGate(cs);
    }
  }

  lemma CallbackKeepsGate(s: State, i: nat, a: CallbackAction)
    requires Inv(s) && i < |s.callbacks| && CallbackStep(s, i, a).Some?
    ensures var s' := CallbackStep(s, i, a).value; Gated(s'.gate, s'.callbacks, s'.control)
  {
    hide Gated, Fifo, Current, Barrier, Accounted, Locked', Writes, SourceFifo, Submits, Takes, Skips, AllRead, Next, Least;
    var s' := CallbackStep(s, i, a).value;
    InGateIsActive(s, i);
    GateUpdate(s.gate, s.callbacks, s.control, i, s'.callbacks[i], s'.gate);
  }

  lemma InGateIsActive(s: State, i: nat)
    requires Inv(s) && i < |s.callbacks|
    ensures InGate(s.callbacks[i]) ==> s.gate.active
  {
    hide Fifo, Current, Barrier, Accounted, Locked', Writes, SourceFifo, Submits, Takes, Skips, AllRead;
  }

  lemma CallbackKeepsCounts(s: State, i: nat, a: CallbackAction)
    requires Inv(s) && i < |s.callbacks| && CallbackStep(s, i, a).Some?
    ensures var s' := CallbackStep(s, i, a).value; Accounted(s'.counts, s'.callbacks)
  {
    hide Fifo, Current, Barrier, Gated, Locked', Writes, SourceFifo, Submits, Takes, Skips, AllRead, Outstanding;
    OutstandingUpdate(s.callbacks, i, CallbackStep(s, i, a).value.callbacks[i]);
  }

  lemma AdvanceShortensQueue(r: ReadyRing, control: Control, r': ReadyRing)
    requires Fifo(r, control) && 0 < Queued(r)
    requires r' == r.(readIndex := Next(r.readIndex, |r.slots|), drained := r.drained + [r.produced[|r.drained|]])
    ensures Fifo(r', control) && Queued(r') == Queued(r) - 1
    ensures forall k :: 0 <= k < Queued(r') ==> Nth(r', k) == Nth(r, k + 1)
  {
    forall k | 0 <= k < Queued(r')
      ensures Nth(r', k) == Nth(r, k + 1) && Nth(r', k).id == r'.produced[|r'.drained| + k]
    {
      assert Nth(r, k + 1).id == r.produced[|r.drained| + (k + 1)];
    }
  }

  lemma CallbackKeepsRing(s: State, i: nat, a: CallbackAction)
    requires Inv(s) && i < |s.callbacks| && CallbackStep(s, i, a).Some?
    ensures var s' := CallbackStep(s, i, a).value;
            && RingShaped(s'.ring) && Fifo(s'.ring, s'.control) && Writes(s'.ring, s'.worker)
            && Current(s'.ring, s'.epoch, s'.worker, s'.control)
  {
    hide Barrier, SourceFifo, Submits, Takes, Skips, Accounted, Locked', Gated, Nth;
    assert Reads(s.ring, s.callbacks[i]);
    if a.Advance? {
      AdvanceShortensQueue(s.ring, s.control, CallbackStep(s, i, a).value.ring);
    }
  }

  lemma CallbackKeepsReads(s: State, i: nat, a: CallbackAction)
    requires Inv(s) && i < |s.callbacks| && CallbackStep(s, i, a).Some?
    ensures var s' := CallbackStep(s, i, a).value; AllRead(s'.ring, s'.callbacks)
  {
    hide Barrier, SourceFifo, Submits, Takes, Skips, Accounted, Locked', Current, Writes;
    var s' := CallbackStep(s, i, a).value;
    assert Reads(s.ring, s.callbacks[i]);
    assert SomeInGate(s.callbacks) ==> !Resetting(s.control);
    if InGate(s.callbacks[i]) {
      assert SomeInGate(s.callbacks);
      assert 0 < Queued(s.ring) ==> Nth(s.ring, 0).id == s.ring.produced[|s.ring.drained|];
    }
    forall j | 0 <= j < |s'.callbacks|
      ensures Reads(s'.ring, s'.callbacks[j])
    {
      assert Reads(s.ring, s.callbacks[j]);
      assert j != i ==> s'.callbacks[j] == s.callbacks[j];
    }
  }

  lemma CallbackKeepsInv(s: State, i: nat, a: CallbackAction)
    requires Inv(s) && i < |s.callbacks| && CallbackStep(s, i, a).Some?
    ensures Inv(CallbackStep(s, i, a).value)
  {
    hide Fifo, Current, Barrier, Gated, Locked', Writes, SourceFifo, Submits, Takes, Skips, AllRead, Accounted;
    CallbackKeepsGate(s, i, a);
    CallbackKeepsCounts(s, i, a);
    CallbackKeepsRing(s, i, a);
    CallbackKeepsReads(s, i, a);
  }

  // ----- The control lane -----

  /** While a reset runs no callback has a slot in hand and the active bit is down. */
  lemma ResetFindsNoReader(s: State, r: ReadyRing)
    requires Inv(s) && Resetting(s.control)
    ensures AllRead(r, s.callbacks) && !s.gate.active && !SomeInGate(s.callbacks)
  {
    forall i | 0 <= i < |s.callbacks|
      ensures Reads(r, s.callbacks[i])
    {
      assert InGate(s.callbacks[i]) ==> SomeInGate(s.callbacks);
    }
  }

  lemma SkipDropsFront(r: SourceRing, count: nat, r': SourceRing)
    requires SourceFifo(r) && count <= |r.pending|
    requires r' == r.(readIndex := Wrap(r.readIndex + count, SOURCE_SLOTS), pending := r.pending[count..])
    ensures SourceShaped(r') && SourceFifo(r')
  {
    forall k | 0 <= k < |r'.pending|
      ensures NthSource(r', k) == r'.pending[k]
    {
      assert NthSource(r, k + count) == r.pending[k + count];
    }
  }

  lemma ControlKeepsInv(s: State, a: ControlAction)
    requires Inv(s) && ControlStep(s, a).Some?
    ensures Inv(ControlStep(s, a).value)
  {
    hide Accounted, AllRead, SourceFifo, Nth;
    var s' := ControlStep(s, a).value;
    match a {
      case ClearRead => ResetFindsNoReader(s, s'.ring);
      case ClearWrite => ResetFindsNoReader(s, s'.ring);
      case LoadSource => SourceFacts(s.source);
      case SkipSource => SkipDropsFront(s.source, s.control.count, s'.source);
      case _ =>
    }
  }

  lemma StepKeepsInv(s: State, a: Action)
    requires Inv(s) && Step(s, a).Some?
    ensures Inv(Step(s, a).value)
  {
    hide Inv, EmulationStep, WorkerStep, CallbackStep, ControlStep;
    match a {
      case Emu(e) => EmulationKeepsInv(s, e);
      case Work(w) => WorkerKeepsInv(s, w);
      case Call(i, c) => CallbackKeepsInv(s, i, c);
      case Ctl(k) => ControlKeepsInv(s, k);
    }
  }

  // ----- Whole runs -----

  /** The transport as configuration leaves it: rings empty, gate open, every lane at rest. */
  predicate Initial(s: State) {
    && |s.ring.slots| >= 2 && s.ring.readIndex == s.ring.writeIndex == 0 && s.ring.produced == s.ring.drained == []
    && |s.source.slots| == SOURCE_SLOTS && s.source.readIndex == s.source.writeIndex == 0 && s.source.pending == []
    && s.gate == Gate(false, false) && s.locks == Locks(Free, Free) && s.counts == Counts(0, 0, 0, 0)
    && s.emulation == Quiet && s.worker == Idle && s.control == Calm && s.engine == []
    && forall i :: 0 <= i < |s.callbacks| ==> s.callbacks[i] == Out
  }

  lemma {:induction false} NothingOwed(cs: seq<Callback>)
    requires forall i :: 0 <= i < |cs| ==> Owed(cs[i]) == 0
    ensures Outstanding(cs) == 0
  {
    if cs != [] {
      NothingOwed(cs[..|cs| - 1]);
    }
  }

  lemma InitialIsSafe(s: State)
    requires Initial(s)
    ensures Inv(s)
  {
    NothingOwed(s.callbacks);
  }

  /** Any interleaving: each action is taken if its lane can take it, and skipped otherwise. */
  function Run(s: State, actions: seq<Action>): (s': State)
    requires Inv(s)
    ensures Inv(s')
    decreases |actions|
  {
    if actions == [] then s
    else
      match Step(s, actions[0])
      case None => Run(s, actions[1..])
      case Some(s') =>
        StepKeepsInv(s, actions[0]);
        Run(s', actions[1..])
  }

  predicate SlotInHand(c: Callback, slot: nat) {
    (c.NonEmpty? || c.CopiedOut?) && c.slot == slot
  }

  predicate Rendering(w: Worker, slot: nat) {
    (w.Room? || w.Rendered? || w.EpochWritten?) && w.slot == slot
  }

  /** The ready ring under all interleavings of the worker, the control lane and
      any number of callbacks: one drain at a time and none during a reset, no
      active bit for the final store to erase, no slot written while it is
      read, a depth within the configured chunks, and drained blocks that are
      the first ones produced since the reset. */
  lemma ReadyRingProtocol(start: State, actions: seq<Action>)
    requires Initial(start)
    ensures Inv(start)
    ensures var s := Run(start, actions);
            && (forall i, j :: 0 <= i < j < |s.callbacks| ==> !(InGate(s.callbacks[i]) && InGate(s.callbacks[j])))
            && (Resetting(s.control) ==> !s.gate.active && !SomeInGate(s.callbacks))
            && (forall i, slot: nat :: 0 <= i < |s.callbacks| && SlotInHand(s.callbacks[i], slot) ==> !Rendering(s.worker, slot))
            && (!s.control.ReadCleared? ==> Depth(s.ring) == Queued(s.ring))
            && Queued(s.ring) <= |s.ring.slots| - 1
            && s.ring.drained <= s.ring.produced
  {
    InitialIsSafe(start);
    var s := Run(start, actions);
    hide Run;
    forall i, slot: nat | 0 <= i < |s.callbacks| && SlotInHand(s.callbacks[i], slot)
      ensures !Rendering(s.worker, slot)
    {
      assert Reads(s.ring, s.callbacks[i]);
    }
  }

  /** Outside a bump in progress, every ready block still queued carries the current epoch. */
  lemma QueuedBlocksAreCurrent(start: State, actions: seq<Action>, k: nat)
    requires Initial(start)
    ensures Inv(start)
    ensures var s := Run(start, actions);
            RingShaped(s.ring) && (k < Queued(s.ring) && !Stale(s.control) ==> k < |s.ring.slots| && Nth(s.ring, k).epoch == s.epoch)
  {
    InitialIsSafe(start);
    hide Run;
  }

  /** From any moment on, no block stamped with an older epoch reaches the
      engine, even one whose slot is published later. */
  lemma {:induction false} OldBlocksNeverAppended(s: State, actions: seq<Action>)
    requires Inv(s)
    ensures var s' := Run(s, actions);
            && s'.epoch >= s.epoch && s.engine <= s'.engine
            && forall k :: |s.engine| <= k < |s'.engine| ==> s'.engine[k].block.stamp >= s.epoch
    decreases |actions|
  {
    hide Step, Gated, Fifo, Current, Barrier, SourceFifo, AllRead, Accounted, Locked', Submits, Takes, Skips, Writes;
    if actions != [] {
      match Step(s, actions[0]) {
        case None => OldBlocksNeverAppended(s, actions[1..]);
        case Some(s1) =>
          StepKeepsInv(s, actions[0]);
          StepAppendsCurrent(s, actions[0]);
          OldBlocksNeverAppended(s1, actions[1..]);
      }
    }
  }

  lemma WorkerAppendsCurrent(s: State, a: WorkerAction)
    requires Inv(s) && WorkerStep(s, a).Some?
    ensures var s' := WorkerStep(s, a).value;
            && s'.epoch == s.epoch && s.engine <= s'.engine
            && forall k :: |s.engine| <= k < |s'.engine| ==> s'.engine[k].block.stamp == s.epoch
  {
    hide Gated, Fifo, Current, SourceFifo, AllRead, Accounted, Locked', Submits, Takes, Skips, Writes;
  }

  lemma OthersAppendNothing(s: State, a: Action)
    requires Inv(s) && Step(s, a).Some? && !a.Work?
    ensures Step(s, a).value.epoch >= s.epoch && Step(s, a).value.engine == s.engine
  {
    hide Gated, Fifo, Current, SourceFifo, AllRead, Accounted, Locked', Submits, Takes, Skips, Writes, Barrier, WorkerStep;
  }

  lemma StepAppendsCurrent(s: State, a: Action)
    requires Inv(s) && Step(s, a).Some?
    ensures var s' := Step(s, a).value;
            && s'.epoch >= s.epoch && s.engine <= s'.engine
            && forall k :: |s.engine| <= k < |s'.engine| ==> s'.engine[k].block.stamp == s.epoch
  {
    hide Inv, EmulationStep, WorkerStep, CallbackStep, ControlStep;
    if a.Work? {
      WorkerAppendsCurrent(s, a.w);
    } else {
      OthersAppendNothing(s, a);
    }
  }

  /** Once no callback is in the middle of a request, every sample requested has
      come out as ready audio, silence or priming silence. */
  lemma SamplesAccounted(start: State, actions: seq<Action>)
    requires Initial(start)
    ensures Inv(start)
    ensures var s := Run(start, actions);
            (forall i :: 0 <= i < |s.callbacks| ==> Owed(s.callbacks[i]) == 0) ==>
              s.counts.requested == s.counts.ready + s.counts.silence + s.counts.priming
  {
    InitialIsSafe(start);
    var s := Run(start, actions);
    if forall i :: 0 <= i < |s.callbacks| ==> Owed(s.callbacks[i]) == 0 {
      NothingOwed(s.callbacks);
    }
  }

  // ----- The source ring is a queue -----

  /** Never more than a ringful waits, the worker holds the oldest block, and no slot is
      written while its block waits or is in the worker's hands. */
  lemma SourceRingProtocol(start: State, actions: seq<Action>)
    requires Initial(start)
    ensures Inv(start)
    ensures var s := Run(start, actions);
            && |s.source.pending| <= SOURCE_SLOTS - 1
            && (s.worker.Taken? ==> s.source.pending != [] && s.worker.block == s.source.pending[0])
            && (s.emulation.HasRoom? || s.emulation.Filled? ==>
                  forall k :: 0 <= k < |s.source.pending| ==> NthSourceSlot(s.source, k) != s.emulation.slot)
  {
    InitialIsSafe(start);
    hide Run;
  }

  // ----- What is refused, and why -----

  /** A source block is refused exactly when eight blocks wait. */
  lemma RefusedWhenEightWait(s: State)
    requires Inv(s) && s.emulation.Stamped?
    ensures EmulationStep(s, CheckRoom).Some?
    ensures EmulationStep(s, CheckRoom).value.emulation.Quiet? <==> |s.source.pending| == 8
  {
    hide Gated, Fifo, AllRead, Current, Barrier, Accounted, Locked', Writes, Takes, Skips;
  }

  /** The worker renders nothing exactly when every slot but one is taken. */
  lemma IdleWhenFull(s: State)
    requires Inv(s) && s.worker.Drained?
    ensures WorkerStep(s, FindRoom).Some?
    ensures WorkerStep(s, FindRoom).value.worker.Idle? <==> Queued(s.ring) == |s.ring.slots| - 1
  {
    assert Locked'(s.locks, s.worker, s.control);
    hide Gated, AllRead, Current, Barrier, Accounted, Writes, Takes, Skips, Submits, SourceFifo;
  }

  /** A callback is turned away exactly when another one drains or a reset is under way. */
  lemma TurnedAwayWhenTaken(s: State, i: nat)
    requires Inv(s) && i < |s.callbacks| && s.callbacks[i].Begun?
    ensures CallbackStep(s, i, Enter).Some?
    ensures CallbackStep(s, i, Enter).value.callbacks[i].Out? <==>
              SomeInGate(s.callbacks) || s.control.Suspended? || Resetting(s.control)
  {
    hide Fifo, AllRead, Current, Barrier, Accounted, Locked', Writes, Takes, Skips, Submits, SourceFifo;
  }

  /** A primed callback gives nothing but silence exactly when nothing is queued. */
  lemma SilentWhenEmpty(s: State, i: nat)
    requires Inv(s) && i < |s.callbacks| && s.callbacks[i].PrimedSeen?
    ensures CallbackStep(s, i, Load).Some?
    ensures var n, s' := s.callbacks[i].n, CallbackStep(s, i, Load).value;
            && (s'.callbacks[i].Unpriming? <==> Queued(s.ring) == 0)
            && (Queued(s.ring) == 0 ==> s'.counts == s.counts.(silence := s.counts.silence + n))
            && (Queued(s.ring) > 0 ==> s'.callbacks[i].NonEmpty? && s'.counts == s.counts)
  {
    InGateIsActive(s, i);
    hide Current, Barrier, Accounted, Locked', Writes, Takes, Skips, Submits, SourceFifo, AllRead;
  }

  /** What a callback copies is the oldest block queued: as many samples as were asked
      for and one block holds, the rest being silence. */
  lemma CopiesOldest(s: State, i: nat)
    requires Inv(s) && i < |s.callbacks| && s.callbacks[i].NonEmpty?
    ensures CallbackStep(s, i, Copy).Some?
    ensures var n, s' := s.callbacks[i].n, CallbackStep(s, i, Copy).value;
            && |s.ring.drained| < |s.ring.produced| && s'.callbacks[i].CopiedOut?
            && s'.callbacks[i].id == s.ring.produced[|s.ring.drained|]
            && s'.counts.ready - s.counts.ready == (if n <= s.chunk then n else s.chunk)
            && s'.counts.silence - s.counts.silence == (if n <= s.chunk then 0 else n - s.chunk)
            && s'.counts.priming == s.counts.priming
  {
    CallbackKeepsReads(s, i, Copy);
    assert Reads(s.ring, s.callbacks[i]);
    var s' := CallbackStep(s, i, Copy).value;
    assert Reads(s'.ring, s'.callbacks[i]);
    hide Current, Barrier, Accounted, Locked', Writes, Takes, Skips, Submits, SourceFifo, Gated, AllRead;
  }

  /** Draining opens when the queue reaches two blocks, or all but one slot of a ring
      smaller than three, and not before. */
  lemma PrimesAtTarget(s: State)
    requires Inv(s) && s.worker.Published?
    ensures WorkerStep(s, Prime).Some?
    ensures WorkerStep(s, Prime).value.primed <==> s.primed || Queued(s.ring) >= (if |s.ring.slots| < 3 then |s.ring.slots| - 1 else 2)
  {
    assert Locked'(s.locks, s.worker, s.control);
    hide Gated, AllRead, Current, Barrier, Accounted, Writes, Takes, Skips, Submits, SourceFifo;
  }
}
