/** What becomes of every source block: runs of the audio transport with a record of
    all that was published and of how it left the source ring. */
module AudioHistory {
  import opened AudioTransport
  import opened Wrappers

  // ----- The record -----

  /** A published block, and whether an epoch bump was under way: the epoch already
      raised, the ring not yet looked at. */
  datatype Publication = Publication(block: Source, amidBump: bool)

  datatype Fate = InHand | Given | Outdated | Skipped

  /** `fates` tells of the oldest publications, those that have left the ring; `seen`
      counts what had been published when the worker last began to drain. */
  datatype History = History(state: State, published: seq<Publication>, fates: seq<Fate>, seen: nat)

  predicate AmidBump(c: Control) {
    c.Bumped? || c.Suspended? || c.Waited? || c.Unprimed? || c.ReadCleared? || c.WriteCleared? || c.Reopened?
  }

  /** The worker has taken a block and not disposed of it yet. */
  predicate Judging(w: Worker) {
    w.Comparing? || w.Appending?
  }

  function Settled(fates: seq<Fate>, fate: Fate): seq<Fate> {
    if fates == [] then [] else fates[|fates| - 1 := fate]
  }

  function Fates(h: History, a: Action, next: State): seq<Fate> {
    match a
    case Work(StoreRead) => h.fates + [InHand]
    case Work(Compare) => if next.worker.Draining? then Settled(h.fates, Outdated) else h.fates
    case Work(Append) => Settled(h.fates, Given)
    case Ctl(SkipSource) => h.fates + seq(if h.state.control.Snapshot? then h.state.control.count else 0, _ => Skipped)
    case _ => h.fates
  }

  function Recorded(h: History, a: Action): History
    requires Inv(h.state)
  {
    match Step(h.state, a)
    case None => h
    case Some(next) =>
      History(next,
              if a == Emu(Publish) && h.state.emulation.Filled?
              then h.published + [Publication(h.state.emulation.block, AmidBump(h.state.control))] else h.published,
              Fates(h, a, next),
              if a == Work(Drain) then |h.published| else h.seen)
  }

  function RecordedRun(h: History, actions: seq<Action>): (h': History)
    requires Inv(h.state)
    ensures h'.state == Run(h.state, actions)
    decreases |actions|
  {
    if actions == [] then h
    else
      match Step(h.state, actions[0])
      case None => RecordedRun(h, actions[1..])
      case Some(_) =>
        StepKeepsInv(h.state, actions[0]);
        RecordedRun(Recorded(h, actions[0]), actions[1..])
  }

  function Blocks(engine: seq<Appended>): (blocks: seq<Source>)
    ensures |blocks| == |engine|
  {
    seq(|engine|, k requires 0 <= k < |engine| => engine[k].block)
  }

  /** The publications that were given to the engine, in order. */
  function Heard(published: seq<Publication>, fates: seq<Fate>): seq<Source>
    requires |fates| <= |published|
    decreases |fates|
  {
    if fates == [] then []
    else
      var n := |fates| - 1;
      Heard(published, fates[..n]) + (if fates[n] == Given then [published[n].block] else [])
  }

  // ----- What every step keeps -----

  /** The `k`-th publication that has not left the ring. */
  function Awaiting(h: History, k: nat): Publication
    requires |h.fates| + k < |h.published|
  {
    h.published[|h.fates| + k]
  }

  /** What has not left the ring waits in it, in order. */
  ghost predicate Waiting(h: History) {
    && |h.fates| + |h.state.source.pending| == |h.published|
    && forall k: nat :: k < |h.state.source.pending| ==> Awaiting(h, k).block == h.state.source.pending[k]
  }

  /** Only the last block taken can be in the worker's hands, and it is while it is judged. */
  ghost predicate Held(h: History) {
    && |h.fates| <= |h.published|
    && (forall j :: 0 <= j < |h.fates| && h.fates[j] == InHand ==> j == |h.fates| - 1 && Judging(h.state.worker))
    && (Judging(h.state.worker) ==>
          && h.fates != [] && h.fates[|h.fates| - 1] == InHand
          && h.state.worker.block == h.published[|h.fates| - 1].block)
  }

  ghost predicate Stamped'(h: History) {
    && (forall j :: 0 <= j < |h.published| ==> h.published[j].block.stamp <= h.state.epoch)
    && (!h.state.emulation.Quiet? ==> h.state.emulation.block.stamp <= h.state.epoch)
  }

  /** What is left out is older than the current epoch, or was published amid a bump;
      and what was published amid a bump is skipped. */
  ghost predicate Justified(h: History)
    requires |h.fates| <= |h.published|
  {
    forall j :: 0 <= j < |h.fates| ==>
      && (h.fates[j] == Outdated ==> h.published[j].block.stamp < h.state.epoch)
      && (h.fates[j] == Skipped ==> h.published[j].block.stamp < h.state.epoch || h.published[j].amidBump)
      && (h.published[j].amidBump ==> h.fates[j] == Skipped)
  }

  /** The `k`-th waiting block is one that the bump under way will skip. */
  predicate Doomed(c: Control, k: nat) {
    AmidBump(c) || (c.Snapshot? && k < c.count)
  }

  ghost predicate Spared(h: History)
    requires |h.fates| + |h.state.source.pending| == |h.published|
  {
    forall k: nat :: k < |h.state.source.pending| ==>
      && (Awaiting(h, k).amidBump ==> Doomed(h.state.control, k))
      && (Doomed(h.state.control, k) && Awaiting(h, k).block.stamp == h.state.epoch ==> Awaiting(h, k).amidBump)
  }

  /** A drain takes everything that had been published when it began. */
  predicate Drains(h: History) {
    match h.state.worker
    case Draining(_, _, left) => |h.fates| + left == h.seen
    case Taken(_, _, left, _) => |h.fates| + left + 1 == h.seen
    case Comparing(_, _, left, _) => |h.fates| + left == h.seen
    case Appending(_, _, left, _) => |h.fates| + left == h.seen
    case Drained => |h.fates| == h.seen
    case _ => true
  }

  ghost predicate Tracked(h: History) {
    && Inv(h.state) && Waiting(h) && Held(h) && Stamped'(h) && Justified(h) && Spared(h) && Drains(h)
    && Heard(h.published, h.fates) == Blocks(h.state.engine)
  }

  lemma HeardSnoc(published: seq<Publication>, fates: seq<Fate>, fate: Fate)
    requires |fates| < |published|
    ensures Heard(published, fates + [fate]) ==
              Heard(published, fates) + (if fate == Given then [published[|fates|].block] else [])
  {
    assert (fates + [fate])[..|fates|] == fates;
  }

  lemma HeardSettled(published: seq<Publication>, fates: seq<Fate>, fate: Fate)
    requires 0 < |fates| <= |published| && fates[|fates| - 1] == InHand
    ensures Heard(published, Settled(fates, fate)) ==
              Heard(published, fates) + (if fate == Given then [published[|fates| - 1].block] else [])
  {
    assert Settled(fates, fate)[..|fates| - 1] == fates[..|fates| - 1];
  }

  lemma {:induction false} HeardSkips(published: seq<Publication>, fates: seq<Fate>, count: nat)
    requires |fates| + count <= |published|
    ensures Heard(published, fates + seq(count, _ => Skipped)) == Heard(published, fates)
    decreases count
  {
    if count == 0 {
      assert fates + seq(count, _ => Skipped) == fates;
    } else {
      HeardSkips(published, fates, count - 1);
      HeardSnoc(published, fates + seq(count - 1, _ => Skipped), Skipped);
      assert fates + seq(count, _ => Skipped) == fates + seq(count - 1, _ => Skipped) + [Skipped];
    }
  }

  lemma {:induction false} HeardMore(published: seq<Publication>, fates: seq<Fate>, more: seq<Publication>)
    requires |fates| <= |published|
    ensures Heard(published + more, fates) == Heard(published, fates)
    decreases |fates|
  {
    if fates != [] { HeardMore(published, fates[..|fates| - 1], more); }
  }

  // ----- The worker -----

  /** What a step of the worker does to all that is recorded. */
  lemma WorkerTakes(s: State, w: WorkerAction)
    requires Inv(s) && WorkerStep(s, w).Some?
    ensures var s' := WorkerStep(s, w).value;
            && s'.epoch == s.epoch && s'.emulation == s.emulation && s'.control == s.control
            && (w.StoreRead? <==> s'.source.pending != s.source.pending)
            && (w.StoreRead? ==>
                  && s.source.pending != [] && s'.source.pending == s.source.pending[1..]
                  && !Judging(s.worker) && s'.worker.Comparing? && s'.worker.block == s.source.pending[0]
                  && !AmidBump(s.control) && !s.control.Snapshot?)
            && (w.Compare? ==> s.worker.Comparing?)
            && (w.Compare? && s.worker.block.stamp == s.epoch ==> s'.worker.Appending? && s'.worker.block == s.worker.block)
            && (w.Compare? && s.worker.block.stamp != s.epoch ==> s'.worker.Draining?)
            && (w.Append? ==> s.worker.Appending? && s'.worker.Draining? && Blocks(s'.engine) == Blocks(s.engine) + [s.worker.block])
            && (!w.StoreRead? && !w.Compare? && !w.Append? ==> !Judging(s.worker) && !Judging(s'.worker))
            && (!w.Append? ==> s'.engine == s.engine)
  {
    assert Takes(s.source, s.worker) && Locked'(s.locks, s.worker, s.control);
    hide Inv, SourceFifo, Fifo, Gated, AllRead, Current, Accounted, Submits, Skips, Takes, Barrier;
    assert Takes(s.source, s.worker);
    TakesFront(s.source, s.worker);
  }

  lemma TakesFront(r: SourceRing, w: Worker)
    requires Takes(r, w)
    ensures w.Taken? ==> r.pending != [] && w.block == r.pending[0]
  {
  }

  /** How much of what had been published when the drain began is still to be taken. */
  function Left(w: Worker): int {
    match w
    case Draining(_, _, left) => left
    case Taken(_, _, left, _) => left + 1
    case Comparing(_, _, left, _) => left
    case Appending(_, _, left, _) => left
    case Drained => 0
    case _ => -1
  }

  lemma WorkerCounts(s: State, w: WorkerAction)
    requires Inv(s) && WorkerStep(s, w).Some?
    ensures var before, after := Left(s.worker), Left(WorkerStep(s, w).value.worker);
            if w.Drain? then after == |s.source.pending|
            else if w.StoreRead? then after == before - 1 >= 0
            else after == before || after == -1
  {
    assert Takes(s.source, s.worker) && SourceShaped(s.source);
    SourceFacts(s.source);
    hide Inv, SourceFifo, Fifo, Gated, AllRead, Current, Accounted, Submits, Skips, Barrier, Locked';
  }

  lemma DrainsByCount(h: History)
    ensures Drains(h) <==> Left(h.state.worker) < 0 || |h.fates| + Left(h.state.worker) == h.seen
  {
  }

  /** `h'` differs from `h` in nothing that the record speaks of, but for its fates. */
  ghost predicate Alike(h: History, h': History) {
    && h'.published == h.published && h'.state.source.pending == h.state.source.pending && h'.state.epoch == h.state.epoch
    && h'.state.control == h.state.control && h'.state.emulation == h.state.emulation
  }

  lemma AlikeKeeps(h: History, h': History)
    requires Waiting(h) && Held(h) && Stamped'(h) && Justified(h) && Spared(h)
    requires Alike(h, h') && h'.fates == h.fates
    requires Judging(h'.state.worker) == Judging(h.state.worker)
    requires Judging(h.state.worker) ==> h'.state.worker.block == h.state.worker.block
    ensures Waiting(h') && Held(h') && Stamped'(h') && Justified(h') && Spared(h')
  {
    assert forall k: nat :: k < |h.state.source.pending| ==> Awaiting(h', k) == Awaiting(h, k);
  }

  lemma SettlingKeeps(h: History, h': History, fate: Fate)
    requires Waiting(h) && Held(h) && Stamped'(h) && Justified(h) && Spared(h)
    requires Alike(h, h') && h'.fates == Settled(h.fates, fate) && Judging(h.state.worker) && !Judging(h'.state.worker)
    requires fate == Given || (fate == Outdated && h.state.worker.block.stamp != h.state.epoch)
    ensures Waiting(h') && Held(h') && Stamped'(h') && Justified(h') && Spared(h')
  {
    assert forall k: nat :: k < |h.state.source.pending| ==> Awaiting(h', k) == Awaiting(h, k);
  }

  lemma TakingKeeps(h: History, h': History)
    requires Waiting(h) && Held(h) && Stamped'(h) && Justified(h) && Spared(h)
    requires h'.published == h.published && h'.fates == h.fates + [InHand] && h.state.source.pending != []
    requires h'.state.source.pending == h.state.source.pending[1..] && h'.state.epoch == h.state.epoch
    requires h'.state.control == h.state.control && h'.state.emulation == h.state.emulation
    requires !AmidBump(h.state.control) && !h.state.control.Snapshot? && !Judging(h.state.worker)
    requires h'.state.worker.Comparing? && h'.state.worker.block == h.state.source.pending[0]
    ensures Waiting(h') && Held(h') && Stamped'(h') && Justified(h') && Spared(h')
  {
    assert !Awaiting(h, 0).amidBump && Awaiting(h, 0).block == h.state.source.pending[0];
    assert forall k: nat :: k < |h'.state.source.pending| ==> Awaiting(h', k) == Awaiting(h, k + 1);
  }

  lemma StoreReadIsTracked(h: History)
    requires Tracked(h) && WorkerStep(h.state, StoreRead).Some?
    ensures Tracked(Recorded(h, Work(StoreRead)))
  {
    var h', a := Recorded(h, Work(StoreRead)), Work(StoreRead);
    StepKeepsInv(h.state, a);
    WorkerTakes(h.state, StoreRead);
    WorkerCounts(h.state, StoreRead);
    DrainsByCount(h);
    DrainsByCount(h');
    HeldFits(h);
    hide Inv, WorkerStep, EmulationStep, CallbackStep, ControlStep, Heard, Drains, Left, Waiting, Held, Stamped', Justified, Spared;
    TakingKeeps(h, h');
    HeardSnoc(h.published, h.fates, InHand);
  }

  lemma HeldFits(h: History)
    requires Waiting(h) && Held(h)
    ensures |h.fates| + |h.state.source.pending| == |h.published|
    ensures Judging(h.state.worker) ==> 0 < |h.fates| && h.fates[|h.fates| - 1] == InHand
  {
  }

  lemma JudgingIsTracked(h: History, w: WorkerAction)
    requires Tracked(h) && WorkerStep(h.state, w).Some? && (w.Compare? || w.Append?)
    ensures Tracked(Recorded(h, Work(w)))
  {
    var h', a := Recorded(h, Work(w)), Work(w);
    StepKeepsInv(h.state, a);
    WorkerTakes(h.state, w);
    WorkerCounts(h.state, w);
    DrainsByCount(h);
    DrainsByCount(h');
    HeldFits(h);
    hide Inv, WorkerStep, EmulationStep, CallbackStep, ControlStep, Heard, Drains, Left, Waiting, Held, Stamped', Justified, Spared;
    if w.Compare? && h.state.worker.block.stamp == h.state.epoch {
      AlikeKeeps(h, h');
    } else {
      var fate := if w.Compare? then Outdated else Given;
      SettlingKeeps(h, h', fate);
      HeardSettled(h.published, h.fates, fate);
    }
  }

  lemma OtherWorkIsTracked(h: History, w: WorkerAction)
    requires Tracked(h) && WorkerStep(h.state, w).Some? && !w.StoreRead? && !w.Compare? && !w.Append?
    ensures Tracked(Recorded(h, Work(w)))
  {
    var h', a := Recorded(h, Work(w)), Work(w);
    StepKeepsInv(h.state, a);
    WorkerTakes(h.state, w);
    WorkerCounts(h.state, w);
    DrainsByCount(h);
    DrainsByCount(h');
    HeldFits(h);
    hide Inv, WorkerStep, EmulationStep, CallbackStep, ControlStep, Heard, Drains, Left, Waiting, Held, Stamped', Justified, Spared;
    AlikeKeeps(h, h');
  }

  lemma WorkerIsTracked(h: History, w: WorkerAction)
    requires Tracked(h) && WorkerStep(h.state, w).Some?
    ensures Tracked(Recorded(h, Work(w)))
  {
    hide Tracked, Recorded, WorkerStep;
    if w.StoreRead? {
      StoreReadIsTracked(h);
    } else if w.Compare? || w.Append? {
      JudgingIsTracked(h, w);
    } else {
      OtherWorkIsTracked(h, w);
    }
  }

  // ----- The other lanes -----

  lemma EmulationTakes(s: State, e: EmulationAction)
    requires Inv(s) && EmulationStep(s, e).Some?
    ensures var s' := EmulationStep(s, e).value;
            && s'.epoch == s.epoch && s'.worker == s.worker && s'.control == s.control && s'.engine == s.engine
            && (e.Stamp? ==> s'.emulation.Stamped? && s'.emulation.block.stamp == s.epoch)
            && (!e.Stamp? && !s'.emulation.Quiet? ==> !s.emulation.Quiet? && s'.emulation.block == s.emulation.block)
            && s'.source.pending == (if e.Publish? then s.source.pending + [s.emulation.block] else s.source.pending)
            && (e.Publish? ==> s.emulation.Filled?)
  {
    hide Inv;
  }

  lemma EmulationIsTracked(h: History, e: EmulationAction)
    requires Tracked(h) && EmulationStep(h.state, e).Some?
    ensures Tracked(Recorded(h, Emu(e)))
  {
    var h', a := Recorded(h, Emu(e)), Emu(e);
    StepKeepsInv(h.state, a);
    EmulationTakes(h.state, e);
    assert Skips(h.state.source, h.state.control);
    hide Inv, WorkerStep, EmulationStep, CallbackStep, ControlStep, Heard, Drains;
    assert h'.fates == h.fates;
    DrainsAlike(h, h');
    if e.Publish? {
      var more := Publication(h.state.emulation.block, AmidBump(h.state.control));
      HeardMore(h.published, h.fates, [more]);
      assert Awaiting(h', |h.state.source.pending|) == more;
    }
    assert forall k: nat :: k < |h.state.source.pending| ==> Awaiting(h', k) == Awaiting(h, k);
    assert Spared(h');
  }

  lemma DrainsAlike(h: History, h': History)
    requires Drains(h) && h'.state.worker == h.state.worker && h'.fates == h.fates && h'.seen == h.seen
    ensures Drains(h')
  {
  }

  lemma CallbackIsTracked(h: History, i: nat, c: CallbackAction)
    requires Tracked(h) && i < |h.state.callbacks| && CallbackStep(h.state, i, c).Some?
    ensures Tracked(Recorded(h, Call(i, c)))
  {
    var h', a := Recorded(h, Call(i, c)), Call(i, c);
    StepKeepsInv(h.state, a);
    CallbackLeaves(h.state, i, c);
    HeldFits(h);
    hide Inv, WorkerStep, EmulationStep, CallbackStep, ControlStep, Heard, Drains, Waiting, Held, Stamped', Justified, Spared;
    DrainsAlike(h, h');
    AlikeKeeps(h, h');
  }

  lemma CallbackLeaves(s: State, i: nat, c: CallbackAction)
    requires Inv(s) && i < |s.callbacks| && CallbackStep(s, i, c).Some?
    ensures var s' := CallbackStep(s, i, c).value;
            && s'.source == s.source && s'.engine == s.engine && s'.worker == s.worker
            && s'.control == s.control && s'.emulation == s.emulation && s'.epoch == s.epoch
  {
    hide Inv;
  }

  lemma ControlTakes(s: State, k: ControlAction)
    requires Inv(s) && ControlStep(s, k).Some?
    ensures var s' := ControlStep(s, k).value;
            && s'.worker == s.worker && s'.emulation == s.emulation && s'.engine == s.engine
            && s'.epoch == (if k.Bump? then s.epoch + 1 else s.epoch)
            && (k.SkipSource? ==>
                  && s.control.Snapshot? && s.control.count <= |s.source.pending| && s'.control.Calm?
                  && s'.source.pending == s.source.pending[s.control.count..] && Left(s.worker) < 0)
            && (!k.SkipSource? ==> s'.source.pending == s.source.pending)
            && (k.Bump? ==> !AmidBump(s.control) && !s.control.Snapshot? && AmidBump(s'.control))
            && (k.LoadSource? ==> AmidBump(s.control) && s'.control == Snapshot(s.source.writeIndex, |s.source.pending|))
            && (!k.Bump? && !k.LoadSource? && !k.SkipSource? ==>
                  !s.control.Snapshot? && !s'.control.Snapshot? && AmidBump(s'.control) == AmidBump(s.control))
  {
    assert Locked'(s.locks, s.worker, s.control);
    hide Inv;
  }

  /** `h'` is `h` after its first `count` waiting blocks were skipped. */
  ghost predicate Skips'(h: History, h': History, count: nat) {
    && h'.published == h.published && h'.fates == h.fates + seq(count, _ => Skipped)
    && count <= |h.state.source.pending| && h'.state.source.pending == h.state.source.pending[count..]
    && h'.state.epoch == h.state.epoch && h'.state.worker == h.state.worker && !Judging(h.state.worker)
    && h.state.control.Snapshot? && h.state.control.count == count && h'.state.control.Calm?
  }

  lemma SkippedWait(h: History, h': History, count: nat)
    requires Waiting(h) && Held(h) && Skips'(h, h', count)
    ensures Waiting(h') && Held(h')
    ensures forall k: nat :: k < |h'.state.source.pending| ==> Awaiting(h', k) == Awaiting(h, k + count)
  {
    assert forall k: nat :: k < |h'.state.source.pending| ==> Awaiting(h', k) == Awaiting(h, k + count);
  }

  lemma SkippedAreJustified(h: History, h': History, count: nat)
    requires Waiting(h) && Justified(h) && Spared(h) && Skips'(h, h', count) && Stamped'(h)
    ensures Justified(h')
  {
    forall j: nat | |h.fates| <= j < |h'.fates|
      ensures h'.fates[j] == Skipped && h.published[j] == Awaiting(h, j - |h.fates|)
    {
    }
  }

  lemma SkippedAreSpared(h: History, h': History, count: nat)
    requires Waiting(h) && Held(h) && Spared(h) && Skips'(h, h', count)
    ensures Waiting(h') && Spared(h')
  {
    SkippedWait(h, h', count);
  }

  lemma SkippingIsTracked(h: History)
    requires Tracked(h) && ControlStep(h.state, SkipSource).Some?
    ensures Tracked(Recorded(h, Ctl(SkipSource)))
  {
    var h', a, count := Recorded(h, Ctl(SkipSource)), Ctl(SkipSource), h.state.control.count;
    StepKeepsInv(h.state, a);
    ControlTakes(h.state, SkipSource);
    DrainsByCount(h');
    hide Inv, ControlStep, Heard, Drains, Waiting, Held, Justified, Spared;
    HeardSkips(h.published, h.fates, count);
    SkippedWait(h, h', count);
    SkippedAreJustified(h, h', count);
    SkippedAreSpared(h, h', count);
  }

  lemma BumpingIsTracked(h: History, k: ControlAction)
    requires Tracked(h) && ControlStep(h.state, k).Some? && !k.SkipSource?
    ensures Tracked(Recorded(h, Ctl(k)))
  {
    var h', a := Recorded(h, Ctl(k)), Ctl(k);
    StepKeepsInv(h.state, a);
    ControlTakes(h.state, k);
    hide Inv, WorkerStep, EmulationStep, CallbackStep, ControlStep, Heard, Drains;
    assert h'.fates == h.fates;
    DrainsAlike(h, h');
    assert forall k: nat :: k < |h.state.source.pending| ==> Awaiting(h', k) == Awaiting(h, k);
    assert Stamped'(h');
    assert Justified(h');
    assert Spared(h');
  }

  lemma StepIsTracked(h: History, a: Action)
    requires Tracked(h)
    ensures Tracked(Recorded(h, a))
  {
    hide Tracked, EmulationStep, WorkerStep, CallbackStep, ControlStep;
    assert Inv(h.state) by { TrackedIsSafe(h); }
    if Step(h.state, a).Some? {
      match a {
        case Work(w) => WorkerIsTracked(h, w);
        case Emu(e) => EmulationIsTracked(h, e);
        case Call(i, c) => CallbackIsTracked(h, i, c);
        case Ctl(k) => if k.SkipSource? { SkippingIsTracked(h); } else { BumpingIsTracked(h, k); }
      }
    }
  }

  lemma TrackedIsSafe(h: History)
    requires Tracked(h)
    ensures Inv(h.state) && RingShaped(h.state.ring) && SourceShaped(h.state.source)
  {
  }

  lemma {:induction false} RunIsTracked(h: History, actions: seq<Action>)
    requires Tracked(h)
    ensures Tracked(RecordedRun(h, actions))
    decreases |actions|
  {
    hide Tracked, Recorded, Step;
    TrackedIsSafe(h);
    if actions != [] {
      StepIsTracked(h, actions[0]);
      NoStepNoRecord(h, actions[0]);
      RunIsTracked(Recorded(h, actions[0]), actions[1..]);
    }
  }

  lemma NoStepNoRecord(h: History, a: Action)
    requires Inv(h.state)
    ensures Step(h.state, a).None? ==> Recorded(h, a) == h
  {
  }

  function FromStart(start: State): History {
    History(start, [], [], 0)
  }

  lemma StartIsTracked(start: State)
    requires Initial(start)
    ensures Tracked(FromStart(start))
  {
    InitialIsSafe(start);
    hide Inv;
  }

  // ----- What becomes of a block -----

  predicate LeftOut(fate: Fate) {
    fate == Outdated || fate == Skipped
  }

  /** Over every run the engine is given exactly the publications that left the ring,
      in order and once, but for those left out and one that may still be in the
      worker's hands. What is left out is older than the current epoch or was published
      amid a bump. Of the blocks of the current epoch exactly those published amid a
      bump are left out. */
  lemma EngineHearsPublishedInOrder(start: State, actions: seq<Action>)
    requires Initial(start)
    ensures Inv(start)
    ensures var end := RecordedRun(FromStart(start), actions);
            && end.state == Run(start, actions)
            && |end.fates| + |end.state.source.pending| == |end.published|
            && Blocks(end.state.engine) == Heard(end.published, end.fates)
            && (forall j :: 0 <= j < |end.fates| && end.fates[j] == InHand ==> j == |end.fates| - 1 && Judging(end.state.worker))
            && (forall j :: 0 <= j < |end.fates| && LeftOut(end.fates[j]) ==>
                  end.published[j].block.stamp < end.state.epoch || end.published[j].amidBump)
            && (forall j :: 0 <= j < |end.fates| && end.published[j].block.stamp == end.state.epoch ==>
                  (LeftOut(end.fates[j]) <==> end.published[j].amidBump))
  {
    InitialIsSafe(start);
    StartIsTracked(start);
    RunIsTracked(FromStart(start), actions);
    hide Inv, RecordedRun, Heard;
  }

  /** `a` is `b` with some entries left out. */
  predicate Subsequence(a: seq<Source>, b: seq<Source>)
    decreases |b|
  {
    || a == []
    || (b != [] && Subsequence(a, b[..|b| - 1]))
    || (b != [] && a[|a| - 1] == b[|b| - 1] && Subsequence(a[..|a| - 1], b[..|b| - 1]))
  }

  lemma {:induction false} SubsequenceGrows(a: seq<Source>, b: seq<Source>, more: seq<Source>)
    requires Subsequence(a, b)
    ensures Subsequence(a, b + more)
    decreases |more|
  {
    if more == [] {
      assert b + more == b;
    } else {
      SubsequenceGrows(a, b, more[..|more| - 1]);
      assert (b + more)[..|b + more| - 1] == b + more[..|more| - 1];
    }
  }

  lemma {:induction false} HeardIsSubsequence(published: seq<Publication>, fates: seq<Fate>)
    requires |fates| <= |published|
    ensures Subsequence(Heard(published, fates), Gone(published, |fates|))
    decreases |fates|
  {
    if fates != [] {
      var n := |fates| - 1;
      HeardIsSubsequence(published, fates[..n]);
      var a, b, x := Heard(published, fates[..n]), Gone(published, n), published[n].block;
      assert Gone(published, n + 1) == b + [x];
      if fates[n] == Given {
        assert (a + [x])[..|a|] == a && (b + [x])[..|b|] == b;
      } else {
        assert Heard(published, fates) == a + [] == a;
        SubsequenceGrows(a, b, [x]);
      }
    }
  }

  /** What reaches the engine is a subsequence of all that was published. */
  lemma SourcesStayInOrder(start: State, actions: seq<Action>)
    requires Initial(start)
    ensures Inv(start)
    ensures var end := RecordedRun(FromStart(start), actions);
            Subsequence(Blocks(end.state.engine), Gone(end.published, |end.published|))
  {
    EngineHearsPublishedInOrder(start, actions);
    hide Inv, RecordedRun, Heard, Subsequence;
    var end := RecordedRun(FromStart(start), actions);
    HeardIsSubsequence(end.published, end.fates);
    var n, all := |end.fates|, Gone(end.published, |end.published|);
    assert all == Gone(end.published, n) + all[n..];
    SubsequenceGrows(Blocks(end.state.engine), Gone(end.published, n), all[n..]);
  }

  /** A drain that has ended has taken everything published before it began. */
  lemma DrainLeavesNothing(start: State, actions: seq<Action>)
    requires Initial(start)
    ensures Inv(start)
    ensures var end := RecordedRun(FromStart(start), actions);
            end.state.worker.Drained? ==> |end.fates| == end.seen
  {
    InitialIsSafe(start);
    StartIsTracked(start);
    RunIsTracked(FromStart(start), actions);
    hide Inv, RecordedRun, Heard;
  }

  // ----- Without a bump nothing is left out -----

  /** What the engine was given, and the block the worker has taken and not judged yet. */
  function Handed(s: State): seq<Source> {
    Blocks(s.engine) + (if Judging(s.worker) then [s.worker.block] else [])
  }

  /** The blocks that have left the ring, in order. */
  function Gone(published: seq<Publication>, n: nat): (blocks: seq<Source>)
    requires n <= |published|
    ensures |blocks| == n
  {
    seq(n, j requires 0 <= j < n => published[j].block)
  }

  ghost predicate Unbumped(h: History) {
    && (h.state.control.Calm? || h.state.control.HasProduction? || h.state.control.HasBoth?)
    && (!h.state.emulation.Quiet? ==> h.state.emulation.block.stamp == h.state.epoch)
    && forall j :: 0 <= j < |h.published| ==> h.published[j].block.stamp == h.state.epoch && !h.published[j].amidBump
  }

  lemma StepIsUnbumped(h: History, a: Action)
    requires Inv(h.state) && Unbumped(h) && a != Ctl(Bump)
    ensures Unbumped(Recorded(h, a))
  {
    assert RingShaped(h.state.ring) && SourceShaped(h.state.source);
    hide Inv, EmulationStep, WorkerStep, CallbackStep, ControlStep, Fates;
    if Step(h.state, a).Some? {
      match a {
        case Work(w) => WorkerTakes(h.state, w);
        case Emu(e) => EmulationTakes(h.state, e);
        case Call(i, c) => CallbackLeaves(h.state, i, c);
        case Ctl(k) => ControlStaysCalm(h.state, k);
      }
    }
  }

  lemma ControlStaysCalm(s: State, k: ControlAction)
    requires (s.control.Calm? || s.control.HasProduction? || s.control.HasBoth?) && !k.Bump? && ControlStep(s, k).Some?
    ensures var s' := ControlStep(s, k).value;
            && (s'.control.HasProduction? || s'.control.HasBoth?)
            && s'.epoch == s.epoch && s'.emulation == s.emulation
  {
  }

  lemma {:induction false} RunIsUnbumped(h: History, actions: seq<Action>)
    requires Inv(h.state) && Unbumped(h) && Ctl(Bump) !in actions
    ensures Unbumped(RecordedRun(h, actions))
    decreases |actions|
  {
    assert RingShaped(h.state.ring) && SourceShaped(h.state.source);
    hide Inv, Recorded, Step, Unbumped;
    if actions != [] {
      assert actions[0] in actions;
      StepIsUnbumped(h, actions[0]);
      NoStepNoRecord(h, actions[0]);
      if Step(h.state, actions[0]).Some? { StepKeepsInv(h.state, actions[0]); }
      RecordedIsSafe(h, actions[0]);
      RunIsUnbumped(Recorded(h, actions[0]), actions[1..]);
    }
  }

  lemma RecordedIsSafe(h: History, a: Action)
    requires Inv(h.state)
    ensures Inv(Recorded(h, a).state)
  {
    assert RingShaped(h.state.ring) && SourceShaped(h.state.source);
    hide Inv;
    if Step(h.state, a).Some? { StepKeepsInv(h.state, a); }
  }

  lemma {:induction false} HeardAll(published: seq<Publication>, fates: seq<Fate>)
    requires |fates| <= |published| && forall j :: 0 <= j < |fates| ==> fates[j] == Given
    ensures Heard(published, fates) == Gone(published, |fates|)
    decreases |fates|
  {
    if fates != [] {
      var n := |fates| - 1;
      HeardAll(published, fates[..n]);
      assert Gone(published, n + 1) == Gone(published, n) + [published[n].block];
    }
  }

  lemma HandedIsGone(h: History)
    requires Tracked(h) && Unbumped(h)
    ensures Handed(h.state) == Gone(h.published, |h.fates|)
  {
    hide Inv;
    assert forall j :: 0 <= j < |h.fates| ==> !LeftOut(h.fates[j]);
    if Judging(h.state.worker) {
      var n := |h.fates| - 1;
      var front := h.fates[..n];
      assert h.fates == front + [InHand];
      HeardSnoc(h.published, front, InHand);
      HeardAll(h.published, front);
      assert Gone(h.published, n + 1) == Gone(h.published, n) + [h.published[n].block];
    } else {
      HeardAll(h.published, h.fates);
    }
  }

  /** In a run without a bump every block taken from the ring is given to the engine. */
  lemma WithoutBumpAllIsHeard(start: State, actions: seq<Action>)
    requires Initial(start) && Ctl(Bump) !in actions
    ensures Inv(start)
    ensures var end := RecordedRun(FromStart(start), actions);
            |end.fates| <= |end.published| && Handed(end.state) == Gone(end.published, |end.fates|)
  {
    InitialIsSafe(start);
    StartIsTracked(start);
    RunIsTracked(FromStart(start), actions);
    RunIsUnbumped(FromStart(start), actions);
    HandedIsGone(RecordedRun(FromStart(start), actions));
    hide Inv, RecordedRun, Heard;
  }

  // ----- A bump can skip a block of its own epoch -----

  lemma {:induction false} RunsOn(h: History, a: seq<Action>, b: seq<Action>)
    requires Inv(h.state)
    ensures Inv(RecordedRun(h, a).state) && RecordedRun(h, a + b) == RecordedRun(RecordedRun(h, a), b)
    decreases |a|
  {
    assert RingShaped(h.state.ring) && SourceShaped(h.state.source);
    hide Inv, Recorded, Step;
    if a == [] {
      assert a + b == b;
    } else {
      assert (a + b)[1..] == a[1..] + b;
      NoStepNoRecord(h, a[0]);
      RecordedIsSafe(h, a[0]);
      RunsOn(Recorded(h, a[0]), a[1..], b);
    }
  }

  lemma RunsOne(h: History, a: Action)
    requires Inv(h.state)
    ensures RecordedRun(h, [a]) == Recorded(h, a) && Inv(Recorded(h, a).state)
  {
    hide Inv, Recorded;
    NoStepNoRecord(h, a);
    RecordedIsSafe(h, a);
  }

  /** Four steps of a run, one after the other. */
  function Four(h: History, a: Action, b: Action, c: Action, d: Action): (h': History)
    requires Inv(h.state)
    ensures Inv(h'.state)
  {
    RecordedIsSafe(h, a);
    var h1 := Recorded(h, a);
    RecordedIsSafe(h1, b);
    var h2 := Recorded(h1, b);
    RecordedIsSafe(h2, c);
    var h3 := Recorded(h2, c);
    RecordedIsSafe(h3, d);
    Recorded(h3, d)
  }

  lemma RunsFour(h: History, a: Action, b: Action, c: Action, d: Action)
    requires Inv(h.state)
    ensures RecordedRun(h, [a, b, c, d]) == Four(h, a, b, c, d)
  {
    hide Inv, Recorded, RecordedRun;
    RunsOne(h, a);
    RunsOn(h, [a], [b, c, d]);
    var h1 := Recorded(h, a);
    RunsOne(h1, b);
    RunsOn(h1, [b], [c, d]);
    var h2 := Recorded(h1, b);
    RunsOne(h2, c);
    RunsOn(h2, [c], [d]);
    RunsOne(Recorded(h2, c), d);
    assert [a] + [b, c, d] == [a, b, c, d] && [b] + [c, d] == [b, c, d] && [c] + [d] == [c, d];
  }

  /** The control lane raises the epoch, the emulation lane publishes a block of the new
      epoch, and the control lane goes on to skip what is in the ring. */
  function Race(id: nat): seq<Action> {
    [Ctl(LockProduction), Ctl(LockSource), Ctl(Bump), Emu(Stamp(id))] +
    ([Emu(CheckRoom), Emu(Fill), Emu(Publish), Ctl(Suspend)] +
     ([Ctl(Wait), Ctl(ClearPrimed), Ctl(ClearRead), Ctl(ClearWrite)] +
      [Ctl(Reopen), Ctl(LoadSource), Ctl(SkipSource), Ctl(SkipSource)]))
  }

  lemma RaceRuns(h: History, id: nat)
    requires Inv(h.state)
    ensures var h1 := Four(h, Ctl(LockProduction), Ctl(LockSource), Ctl(Bump), Emu(Stamp(id)));
            var h2 := Four(h1, Emu(CheckRoom), Emu(Fill), Emu(Publish), Ctl(Suspend));
            var h3 := Four(h2, Ctl(Wait), Ctl(ClearPrimed), Ctl(ClearRead), Ctl(ClearWrite));
            RecordedRun(h, Race(id)) == Four(h3, Ctl(Reopen), Ctl(LoadSource), Ctl(SkipSource), Ctl(SkipSource))
  {
    hide Inv, Four, RecordedRun;
    var a := [Ctl(LockProduction), Ctl(LockSource), Ctl(Bump), Emu(Stamp(id))];
    var b := [Emu(CheckRoom), Emu(Fill), Emu(Publish), Ctl(Suspend)];
    var c := [Ctl(Wait), Ctl(ClearPrimed), Ctl(ClearRead), Ctl(ClearWrite)];
    var d := [Ctl(Reopen), Ctl(LoadSource), Ctl(SkipSource), Ctl(SkipSource)];
    RunsFour(h, a[0], a[1], a[2], a[3]);
    RunsOn(h, a, b + (c + d));
    var h1 := RecordedRun(h, a);
    RunsFour(h1, b[0], b[1], b[2], b[3]);
    RunsOn(h1, b, c + d);
    var h2 := RecordedRun(h1, b);
    RunsFour(h2, c[0], c[1], c[2], c[3]);
    RunsOn(h2, c, d);
    RunsFour(RecordedRun(h2, c), d[0], d[1], d[2], d[3]);
  }

  lemma RaceBumps(h: History, id: nat)
    requires Inv(h.state) && Initial(h.state)
    ensures Four(h, Ctl(LockProduction), Ctl(LockSource), Ctl(Bump), Emu(Stamp(id))) ==
              h.(state := h.state.(locks := Locks(ControlLane, ControlLane), control := Bumped, epoch := h.state.epoch + 1,
                                   emulation := Stamped(Source(id, h.state.epoch + 1))))
  {
    hide Inv;
  }

  lemma RacePublishes(h: History, block: Source)
    requires Inv(h.state) && h.state.control == Bumped && h.state.emulation == Stamped(block)
    requires h.state.source.readIndex == h.state.source.writeIndex == 0
    ensures var h' := Four(h, Emu(CheckRoom), Emu(Fill), Emu(Publish), Ctl(Suspend));
            && h'.published == h.published + [Publication(block, true)] && h'.fates == h.fates
            && h'.state.control == Suspended && h'.state.emulation == Quiet && h'.state.engine == h.state.engine
            && h'.state.epoch == h.state.epoch && h'.state.source.pending == h.state.source.pending + [block]
            && h'.state.gate.active == h.state.gate.active
  {
    hide Inv;
  }

  lemma RaceResets(h: History)
    requires Inv(h.state) && h.state.control == Suspended && !h.state.gate.active
    ensures var h' := Four(h, Ctl(Wait), Ctl(ClearPrimed), Ctl(ClearRead), Ctl(ClearWrite));
            && h'.published == h.published && h'.fates == h.fates && h'.state.control == WriteCleared
            && h'.state.engine == h.state.engine && h'.state.epoch == h.state.epoch && h'.state.source == h.state.source
  {
    hide Inv;
  }

  lemma RaceSkips(h: History)
    requires Inv(h.state) && h.state.control == WriteCleared
    ensures var h' := Four(h, Ctl(Reopen), Ctl(LoadSource), Ctl(SkipSource), Ctl(SkipSource));
            && h'.published == h.published && h'.fates == h.fates + seq(|h.state.source.pending|, _ => Skipped)
            && h'.state.engine == h.state.engine && h'.state.epoch == h.state.epoch
  {
    hide Inv;
  }

  /** So a block can be left out although it carries the current epoch: published in
      that moment it is skipped, in every pool of lanes. */
  lemma CurrentBlockIsSkipped(start: State, id: nat)
    requires Initial(start)
    ensures Inv(start)
    ensures var end := RecordedRun(FromStart(start), Race(id));
            && end.published == [Publication(Source(id, end.state.epoch), true)] && end.fates == [Skipped]
            && end.state.engine == []
  {
    InitialIsSafe(start);
    var h := FromStart(start);
    RaceRuns(h, id);
    RaceBumps(h, id);
    var h1 := Four(h, Ctl(LockProduction), Ctl(LockSource), Ctl(Bump), Emu(Stamp(id)));
    var h2 := Four(h1, Emu(CheckRoom), Emu(Fill), Emu(Publish), Ctl(Suspend));
    var h3 := Four(h2, Ctl(Wait), Ctl(ClearPrimed), Ctl(ClearRead), Ctl(ClearWrite));
    hide Inv, Four, RecordedRun, Race;
    RacePublishes(h1, Source(id, start.epoch + 1));
    RaceResets(h2);
    RaceSkips(h3);
    assert seq(1, _ => Skipped) == [Skipped];
  }
}
