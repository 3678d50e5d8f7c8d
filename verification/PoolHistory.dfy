/** Why the pool turns a task away and why a worker comes to rest: runs of the
    work-stealing pool with a record of what each lane met on its way round the deques. */
module PoolHistory {
  import opened ThreadPool
  import opened Wrappers
  import Bits

  /** `full[i]` lists the deques that submitter `i` found full since its reservation,
      `empty[w]` holds those that worker `w` found empty since it last turned to its own. */
  datatype Tours = Tours(state: State, full: seq<seq<nat>>, empty: seq<set<nat>>)

  predicate Shaped(s: State) {
    |s.workers| == |s.queues| > 0
  }

  /** The `k`-th deque counting round from `from`. */
  function Around(from: nat, k: nat, n: nat): (index: nat)
    requires n > 0
    ensures index < n
  {
    (from + k) % n
  }

  /** The `k`-th deque counting round from behind a worker's own. */
  function Behind(w: nat, k: nat, n: nat): (index: nat)
    requires n > 0
    ensures index < n
  {
    Around(w + 1, k, n)
  }

  function FullMet(s: State, full: seq<seq<nat>>, i: nat, x: SubmitAction): seq<seq<nat>>
    requires Shaped(s) && i < |s.submitters| == |full|
  {
    if x.Reserve? then full[i := []]
    else if x.TryPush? && s.submitters[i].Reserved? then
      var index := Around(s.submitters[i].robin, s.submitters[i].offset, |s.queues|);
      if |s.queues[index]| >= s.perWorker then full[i := full[i] + [index]] else full
    else full
  }

  function EmptyMet(s: State, empty: seq<set<nat>>, w: nat, x: WorkAction): seq<set<nat>>
    requires Shaped(s) && w < |s.workers| == |empty|
  {
    if x.TakeLocal? then empty[w := if s.queues[w] == [] then {w} else {}]
    else if x.Steal? && s.workers[w].Stealing? && s.workers[w].offset < |s.queues| then
      var victim := Behind(w, s.workers[w].offset, |s.queues|);
      if s.queues[victim] == [] then empty[w := empty[w] + {victim}] else empty
    else empty
  }

  predicate Fits(h: Tours) {
    Shaped(h.state) && |h.full| == |h.state.submitters| && |h.empty| == |h.state.workers|
  }

  function Recorded(h: Tours, a: Action): Tours
    requires Fits(h)
  {
    match Step(h.state, a)
    case None => h
    case Some(next) =>
      Tours(next,
              if a.Submitting? && a.i < |h.full| then FullMet(h.state, h.full, a.i, a.s) else h.full,
              if a.Working? && a.w < |h.empty| then EmptyMet(h.state, h.empty, a.w, a.a) else h.empty)
  }

  // ----- What every step keeps -----

  ghost predicate SubmitterMet(x: Submitter, full: seq<nat>, n: nat)
    requires n > 0
  {
    && (x.Reserved? ==> x.offset == |full| < n && forall k: nat :: k < |full| ==> full[k] == Around(x.robin, k, n))
    && (x.Failed? ==> forall d: nat :: d < n ==> d in full)
  }

  ghost predicate WorkerMet(x: Worker, w: nat, empty: set<nat>, n: nat)
    requires n > 0
  {
    && (x.Stealing? ==> w in empty && x.offset <= n && forall k: nat :: k < x.offset ==> Behind(w, k, n) in empty)
    && (x.Checking? || x.Scanning? ==> forall d: nat :: d < n ==> d in empty)
  }

  ghost predicate AllMet(h: Tours) {
    && Fits(h)
    && (forall i :: 0 <= i < |h.full| ==> SubmitterMet(h.state.submitters[i], h.full[i], |h.state.queues|))
    && (forall w: nat :: w < |h.empty| ==> WorkerMet(h.state.workers[w], w, h.empty[w], |h.state.queues|))
  }

  /** Counting round from anywhere meets every deque. */
  lemma AroundMeetsAll(from: nat, d: nat, n: nat) returns (k: nat)
    requires d < n
    ensures k < n && Around(from, k, n) == d
  {
    var q, r := from / n, from % n;
    assert from == q * n + r;
    if d >= r {
      k := d - r;
      Bits.DivModUnique(from + k, n, q, d);
    } else {
      k := d + n - r;
      assert (q + 1) * n == q * n + n;
      Bits.DivModUnique(from + k, n, q + 1, d);
    }
  }

  lemma FullRound(robin: nat, full: seq<nat>, n: nat)
    requires n > 0 && |full| == n && forall k: nat :: k < n ==> full[k] == Around(robin, k, n)
    ensures forall d: nat :: d < n ==> d in full
  {
    hide Around;
    forall d: nat | d < n
      ensures d in full
    {
      var k := AroundMeetsAll(robin, d, n);
      assert full[k] == d;
    }
  }

  lemma EmptyRound(w: nat, empty: set<nat>, n: nat)
    requires n > 0 && forall k: nat :: k < n ==> Behind(w, k, n) in empty
    ensures forall d: nat :: d < n ==> d in empty
  {
    hide Around;
    forall d: nat | d < n
      ensures d in empty
    {
      var k := AroundMeetsAll(w + 1, d, n);
      assert Behind(w, k, n) == d;
    }
  }

  /** Only what one submitter has met has changed. */
  lemma SubmitterReplaced(h: Tours, h': Tours, i: nat)
    requires AllMet(h) && Fits(h') && i < |h.full| == |h'.full| && |h'.state.queues| == |h.state.queues|
    requires h'.empty == h.empty && h'.state.workers == h.state.workers
    requires h'.full == h.full[i := h'.full[i]]
    requires h'.state.submitters == h.state.submitters[i := h'.state.submitters[i]]
    requires SubmitterMet(h'.state.submitters[i], h'.full[i], |h'.state.queues|)
    ensures AllMet(h')
  {
    hide SubmitterMet, WorkerMet;
  }

  lemma WorkerReplaced(h: Tours, h': Tours, w: nat)
    requires AllMet(h) && Fits(h') && w < |h.empty| == |h'.empty| && |h'.state.queues| == |h.state.queues|
    requires h'.full == h.full && h'.state.submitters == h.state.submitters
    requires h'.empty == h.empty[w := h'.empty[w]]
    requires h'.state.workers == h.state.workers[w := h'.state.workers[w]]
    requires WorkerMet(h'.state.workers[w], w, h'.empty[w], |h'.state.queues|)
    ensures AllMet(h')
  {
    hide SubmitterMet, WorkerMet;
  }

  lemma SubmitReplaces(s: State, i: nat, x: SubmitAction)
    requires Shaped(s) && i < |s.submitters| && SubmitStep(s, i, x).Some?
    ensures var s' := SubmitStep(s, i, x).value;
            && |s'.queues| == |s.queues| && s'.workers == s.workers && |s'.submitters| == |s.submitters|
            && s'.submitters == s.submitters[i := s'.submitters[i]]
  {
    hide LifecycleFree;
  }

  lemma WorkReplaces(s: State, w: nat, x: WorkAction)
    requires Shaped(s) && w < |s.workers| && WorkStep(s, w, x).Some?
    ensures var s' := WorkStep(s, w, x).value;
            && |s'.queues| == |s.queues| && s'.submitters == s.submitters && |s'.workers| == |s.workers|
            && s'.workers == s.workers[w := s'.workers[w]]
  {
  }

  lemma SubmitMeets(s: State, full: seq<seq<nat>>, i: nat, x: SubmitAction)
    requires Shaped(s) && i < |s.submitters| == |full| && SubmitStep(s, i, x).Some?
    requires SubmitterMet(s.submitters[i], full[i], |s.queues|)
    ensures |SubmitStep(s, i, x).value.submitters| == |full|
    ensures SubmitterMet(SubmitStep(s, i, x).value.submitters[i], FullMet(s, full, i, x)[i], |s.queues|)
  {
    hide LifecycleFree, Around;
    if x.TryPush? && s.submitters[i].Reserved? {
      AroundIs(s.submitters[i].robin, s.submitters[i].offset, |s.queues|);
      if SubmitStep(s, i, x).value.submitters[i].Failed? {
        FullRound(s.submitters[i].robin, FullMet(s, full, i, x)[i], |s.queues|);
      }
    }
  }

  lemma WorkMeets(s: State, empty: seq<set<nat>>, w: nat, x: WorkAction)
    requires Shaped(s) && w < |s.workers| == |empty| && WorkStep(s, w, x).Some?
    requires WorkerMet(s.workers[w], w, empty[w], |s.queues|)
    ensures |WorkStep(s, w, x).value.workers| == |empty|
    ensures WorkerMet(WorkStep(s, w, x).value.workers[w], w, EmptyMet(s, empty, w, x)[w], |s.queues|)
  {
    hide Around;
    if x.Steal? && s.workers[w].Stealing? {
      if s.workers[w].offset < |s.queues| {
        AroundIs(w + 1, s.workers[w].offset, |s.queues|);
      } else {
        EmptyRound(w, empty[w], |s.queues|);
      }
    }
  }

  lemma SubmittingMet(h: Tours, i: nat, x: SubmitAction)
    requires AllMet(h) && i < |h.state.submitters| && SubmitStep(h.state, i, x).Some?
    ensures AllMet(Recorded(h, Submitting(i, x)))
  {
    SubmitMeets(h.state, h.full, i, x);
    SubmitReplaces(h.state, i, x);
    SubmitKeepsShape(h.state, i, x);
    hide SubmitterMet, WorkerMet, AllMet, SubmitStep, WorkStep, OtherStep;
    SubmitterReplaced(h, Recorded(h, Submitting(i, x)), i);
  }

  lemma AroundIs(from: nat, k: nat, n: nat)
    requires n > 0
    ensures Around(from, k, n) == (from + k) % n
  {
  }

  lemma WorkingMet(h: Tours, w: nat, x: WorkAction)
    requires AllMet(h) && w < |h.state.workers| && WorkStep(h.state, w, x).Some?
    ensures AllMet(Recorded(h, Working(w, x)))
  {
    WorkMeets(h.state, h.empty, w, x);
    WorkReplaces(h.state, w, x);
    WorkKeepsShape(h.state, w, x);
    hide SubmitterMet, WorkerMet, AllMet, SubmitStep, WorkStep, OtherStep;
    WorkerReplaced(h, Recorded(h, Working(w, x)), w);
  }

  lemma OtherMet(h: Tours, a: Action)
    requires AllMet(h) && !a.Submitting? && !a.Working? && OtherStep(h.state, a).Some?
    ensures AllMet(Recorded(h, a))
  {
    hide SubmitterMet, WorkerMet, LifecycleFree;
  }

  lemma StepMet(h: Tours, a: Action)
    requires AllMet(h)
    ensures AllMet(Recorded(h, a))
  {
    assert Fits(h);
    hide AllMet, SubmitStep, WorkStep, OtherStep;
    if Step(h.state, a).Some? {
      match a {
        case Submitting(i, x) => SubmittingMet(h, i, x);
        case Working(w, x) => WorkingMet(h, w, x);
        case _ => OtherMet(h, a);
      }
    }
  }

  // ----- Whole runs -----

  function RecordedRun(h: Tours, actions: seq<Action>): (h': Tours)
    requires AllMet(h)
    ensures AllMet(h')
    decreases |actions|
  {
    if actions == [] then h
    else
      StepMet(h, actions[0]);
      RecordedRun(Recorded(h, actions[0]), actions[1..])
  }

  function FromStart(start: State): Tours {
    Tours(start, seq(|start.submitters|, _ => []), seq(|start.workers|, _ => {}))
  }

  lemma StartMet(start: State)
    requires Started(start)
    ensures AllMet(FromStart(start))
  {
  }

  lemma {:induction false} RecordedRunIsRun(h: Tours, actions: seq<Action>)
    requires AllMet(h) && Inv(h.state)
    ensures RecordedRun(h, actions).state == Run(h.state, actions)
    decreases |actions|
  {
    assert Fits(h);
    hide AllMet, Inv, Step;
    if actions != [] {
      StepMet(h, actions[0]);
      if Step(h.state, actions[0]).Some? { StepKeepsInv(h.state, actions[0]); }
      RecordedRunIsRun(Recorded(h, actions[0]), actions[1..]);
    }
  }

  /** A submission ends without its task accepted. */
  predicate TurnsAway(s: State, a: Action)
    requires Shaped(s)
  {
    && a.Submitting? && Step(s, a).Some? && a.i < |s.submitters|
    && (a.s.Submit? || a.s.Reserve? || a.s.TryPush? || a.s.GiveBack?)
    && Step(s, a).value.submitters[a.i].Resting? && Step(s, a).value.accepted == s.accepted
  }

  /** In every run a task is turned away only from a pool that is stopping, or while as
      many tasks as the cap allows are queued or about to be, or after every deque was
      found full when the submitter looked at it. */
  lemma TurnedAwayForAReason(start: State, actions: seq<Action>, a: Action)
    requires Started(start)
    ensures Inv(start) && AllMet(FromStart(start))
    ensures var h := RecordedRun(FromStart(start), actions);
            var s := h.state;
            && s == Run(start, actions)
            && (TurnsAway(s, a) ==>
                  || !s.running || s.stopRequested
                  || (s.total != 0 && |Tasks(s.queues)| + InFlight(s.submitters) >= s.total)
                  || (a.i < |h.full| && forall d: nat :: d < |s.queues| ==> d in h.full[a.i]))
  {
    StartedIsSafe(start);
    StartMet(start);
    RecordedRunIsRun(FromStart(start), actions);
    var h := RecordedRun(FromStart(start), actions);
    hide RecordedRun, Tasks, InFlight, Run;
    if TurnsAway(h.state, a) {
      assert SubmitterMet(h.state.submitters[a.i], h.full[a.i], |h.state.queues|);
      PushAccepts(h.state, a.i, a.s);
    }
  }

  lemma PushAccepts(s: State, i: nat, x: SubmitAction)
    requires Shaped(s) && i < |s.submitters| && SubmitStep(s, i, x).Some?
    requires SubmitStep(s, i, x).value.submitters[i].Resting? && SubmitStep(s, i, x).value.accepted == s.accepted
    ensures s.submitters[i].Failed? || (x.Submit? && (!s.running || s.stopRequested))
            || (x.Reserve? && s.total != 0 && s.reserved >= s.total)
  {
    if x.TryPush? {
      var task := s.submitters[i].task;
      assert (s.accepted + multiset{task})[task] == s.accepted[task] + 1;
    }
  }

  /** In every run a worker looks for a stop, or for the last tasks before it leaves, only
      after every deque was empty when it looked at it. */
  lemma RestsForAReason(start: State, actions: seq<Action>, w: nat)
    requires Started(start)
    ensures Inv(start) && AllMet(FromStart(start))
    ensures var h := RecordedRun(FromStart(start), actions);
            && h.state == Run(start, actions)
            && (w < |h.state.workers| && (h.state.workers[w].Checking? || h.state.workers[w].Scanning?) ==>
                  w < |h.empty| && forall d: nat :: d < |h.state.queues| ==> d in h.empty[w])
  {
    StartedIsSafe(start);
    StartMet(start);
    RecordedRunIsRun(FromStart(start), actions);
    hide RecordedRun, Run;
  }

  /** The last task of the deque `victim`, and nothing else, has left the deques. */
  predicate Stolen(s: State, s': State, victim: nat, task: Task) {
    && victim < |s.queues| == |s'.queues| && s.queues[victim] == s'.queues[victim] + [task]
    && forall d :: 0 <= d < |s.queues| && d != victim ==> s'.queues[d] == s.queues[d]
  }

  /** A worker takes the oldest task of its own deque and the newest of another's. */
  lemma TakesOldestStealsNewest(s: State, w: nat, x: WorkAction)
    requires Shaped(s) && w < |s.workers| && WorkStep(s, w, x).Some? && WorkStep(s, w, x).value.workers[w].Executing?
    ensures var s' := WorkStep(s, w, x).value;
            var task := s'.workers[w].task;
            && (x.TakeLocal? || x.Steal?)
            && (x.TakeLocal? ==> s.queues[w] == [task] + s'.queues[w] && forall d :: 0 <= d < |s.queues| && d != w ==> s'.queues[d] == s.queues[d])
            && (x.Steal? ==> exists victim: nat :: victim != w && Stolen(s, s', victim, task))
  {
    if x.Steal? {
      var victim := (w + 1 + s.workers[w].offset) % |s.queues|;
      assert Stolen(s, WorkStep(s, w, x).value, victim, s.queues[victim][|s.queues[victim]| - 1]);
    }
  }
}
