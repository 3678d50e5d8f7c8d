/** The work-stealing pool as lock-level steps of submitters, workers, a
    canceller and the shutting-down thread. */
module ThreadPool {
  import opened Wrappers

  type Task = nat

  // ----- State -----

  /** `Reserved` and `Failed` hold a queued-slot reservation; all but `Resting`
      and `Failed` hold the lifecycle lock. */
  datatype Submitter =
    | Resting
    | Admitted(task: Task)
    | Reserved(task: Task, robin: nat, offset: nat)
    | Failed

  datatype Worker =
    | Looking
    | Stealing(offset: nat)
    | Executing(task: Task)
    | Checking
    | Scanning(next: nat)
    | Exited

  datatype Canceller = Quiet | Cancelling(next: nat)

  datatype Shutdown = Running | Joining | Stopped

  /** `accepted`, `finished` and `cancelled` record every task ever pushed,
      executed to the end, or removed; the code keeps only their sizes. */
  datatype State = State(
    queues: seq<seq<Task>>, reserved: int, pending: int, roundRobin: nat,
    running: bool, stopRequested: bool,
    submitters: seq<Submitter>, workers: seq<Worker>, canceller: Canceller, shutdown: Shutdown,
    perWorker: nat, total: nat,
    accepted: multiset<Task>, finished: multiset<Task>, cancelled: multiset<Task>)

  // ----- Tallies -----

  function Tasks(queues: seq<seq<Task>>): multiset<Task> {
    if queues == [] then multiset{} else Tasks(queues[..|queues| - 1]) + multiset(queues[|queues| - 1])
  }

  function InHand(w: Worker): multiset<Task> {
    if w.Executing? then multiset{w.task} else multiset{}
  }

  function Running'(workers: seq<Worker>): multiset<Task> {
    if workers == [] then multiset{} else Running'(workers[..|workers| - 1]) + InHand(workers[|workers| - 1])
  }

  function Holds(x: Submitter): nat {
    if x.Reserved? || x.Failed? then 1 else 0
  }

  /** Reservations held by submitters that have not pushed. */
  function InFlight(xs: seq<Submitter>): nat {
    if xs == [] then 0 else InFlight(xs[..|xs| - 1]) + Holds(xs[|xs| - 1])
  }

  predicate Locking(x: Submitter) {
    x.Admitted? || x.Reserved?
  }

  predicate LifecycleFree(xs: seq<Submitter>) {
    forall i :: 0 <= i < |xs| ==> !Locking(xs[i])
  }

  // ----- Steps -----

  datatype SubmitAction = Submit(task: Task) | Reserve | TryPush | GiveBack

  datatype WorkAction = TakeLocal | Steal | Finish | CheckStop | Scan

  datatype Action =
    | Submitting(i: nat, s: SubmitAction)
    | Working(w: nat, a: WorkAction)
    | CancelStart | CancelNext
    | RequestStop | Join

  /** One submission: admission under the lifecycle lock, a reserved slot, the
      first queue with room counting round from the next robin, and the slot
      given back when every queue is full. */
  function SubmitStep(s: State, i: nat, a: SubmitAction): Option<State>
    requires i < |s.submitters| && |s.queues| > 0
  {
    match (a, s.submitters[i])
    case (Submit(task), Resting) =>
      if !LifecycleFree(s.submitters) then None
      else if !s.running || s.stopRequested then Some(s)
      else Some(s.(submitters := s.submitters[i := Admitted(task)]))
    case (Reserve, Admitted(task)) =>
      if s.total != 0 && s.reserved >= s.total then Some(s.(submitters := s.submitters[i := Resting]))
      else Some(s.(reserved := s.reserved + 1, roundRobin := s.roundRobin + 1,
                   submitters := s.submitters[i := Reserved(task, s.roundRobin, 0)]))
    case (TryPush, Reserved(task, robin, offset)) =>
      var index := (robin + offset) % |s.queues|;
      if |s.queues[index]| >= s.perWorker then
        Some(s.(submitters := s.submitters[i := if offset + 1 >= |s.queues| then Failed else Reserved(task, robin, offset + 1)]))
      else
        Some(s.(queues := s.queues[index := s.queues[index] + [task]], pending := s.pending + 1,
                accepted := s.accepted + multiset{task}, submitters := s.submitters[i := Resting]))
    case (GiveBack, Failed) => Some(s.(reserved := s.reserved - 1, submitters := s.submitters[i := Resting]))
    case _ => None
  }

  /** A worker takes from the front of its own queue, steals from the back of
      another, and leaves only when a stop is requested and a scan, one lock at
      a time, finds every queue empty. */
  function WorkStep(s: State, w: nat, a: WorkAction): Option<State>
    requires w < |s.workers| == |s.queues|
  {
    match (a, s.workers[w])
    case (TakeLocal, Looking) =>
      if s.queues[w] == [] then Some(s.(workers := s.workers[w := Stealing(0)]))
      else Some(s.(queues := s.queues[w := s.queues[w][1..]], reserved := s.reserved - 1,
                   workers := s.workers[w := Executing(s.queues[w][0])]))
    case (Steal, Stealing(offset)) =>
      if offset >= |s.queues| then Some(s.(workers := s.workers[w := Checking]))
      else
        var victim := (w + 1 + offset) % |s.queues|;
        var q := s.queues[victim];
        if victim == w || q == [] then Some(s.(workers := s.workers[w := Stealing(offset + 1)]))
        else Some(s.(queues := s.queues[victim := q[..|q| - 1]], reserved := s.reserved - 1,
                     workers := s.workers[w := Executing(q[|q| - 1])]))
    case (Finish, Executing(task)) =>
      Some(s.(finished := s.finished + multiset{task}, pending := s.pending - 1, workers := s.workers[w := Looking]))
    case (CheckStop, Checking) =>
      Some(s.(workers := s.workers[w := if s.stopRequested then Scanning(0) else Looking]))
    case (Scan, Scanning(next)) =>
      if next >= |s.queues| then Some(s.(workers := s.workers[w := Exited]))
      else if s.queues[next] != [] then Some(s.(workers := s.workers[w := Looking]))
      else Some(s.(workers := s.workers[w := Scanning(next + 1)]))
    case _ => None
  }

  /** Cancelling empties one queue at a time; shutdown requests the stop under
      the lifecycle lock and then joins every worker. */
  function OtherStep(s: State, a: Action): Option<State>
    requires !a.Submitting? && !a.Working?
  {
    match a
    case CancelStart => if s.canceller.Quiet? then Some(s.(canceller := Cancelling(0))) else None
    case CancelNext =>
      if s.canceller.Quiet? then None
      else if s.canceller.next >= |s.queues| then Some(s.(canceller := Quiet))
      else
        var q := s.queues[s.canceller.next];
        Some(s.(queues := s.queues[s.canceller.next := []], reserved := s.reserved - |q|, pending := s.pending - |q|,
                cancelled := s.cancelled + multiset(q), canceller := Cancelling(s.canceller.next + 1)))
    case RequestStop =>
      if s.shutdown.Running? && s.running && LifecycleFree(s.submitters) then Some(s.(stopRequested := true, shutdown := Joining)) else None
    case Join =>
      if s.shutdown.Joining? && LifecycleFree(s.submitters) && forall w :: 0 <= w < |s.workers| ==> s.workers[w].Exited?
      then Some(s.(running := false, shutdown := Stopped)) else None
  }

  function Step(s: State, a: Action): Option<State>
    requires |s.workers| == |s.queues| > 0
  {
    match a
    case Submitting(i, x) => if i < |s.submitters| then SubmitStep(s, i, x) else None
    case Working(w, x) => if w < |s.workers| then WorkStep(s, w, x) else None
    case _ => OtherStep(s, a)
  }

  // ----- Invariants -----

  /** Every accepted task is in exactly one place. */
  ghost predicate Conserved(queues: seq<seq<Task>>, workers: seq<Worker>, accepted: multiset<Task>, finished: multiset<Task>, cancelled: multiset<Task>) {
    accepted == finished + cancelled + Tasks(queues) + Running'(workers)
  }

  /** The counters the code keeps. */
  ghost predicate Counted(queues: seq<seq<Task>>, workers: seq<Worker>, submitters: seq<Submitter>, reserved: int, pending: int) {
    && reserved == |Tasks(queues)| + InFlight(submitters)
    && pending == |Tasks(queues)| + |Running'(workers)|
  }

  ghost predicate Capped(s: State) {
    && (s.total != 0 ==> s.reserved <= s.total)
    && (forall i :: 0 <= i < |s.queues| ==> |s.queues[i]| <= s.perWorker)
  }

  ghost predicate OneAdmitted(xs: seq<Submitter>) {
    forall i, j :: 0 <= i < j < |xs| ==> !(Locking(xs[i]) && Locking(xs[j]))
  }

  /** Once a stop is requested nobody pushes, so a queue seen empty stays empty. */
  ghost predicate Draining(stopRequested: bool, submitters: seq<Submitter>, workers: seq<Worker>, queues: seq<seq<Task>>) {
    && (stopRequested ==> LifecycleFree(submitters))
    && (forall w :: 0 <= w < |workers| ==> Seen(stopRequested, workers[w], queues))
  }

  predicate Seen(stopRequested: bool, w: Worker, queues: seq<seq<Task>>) {
    && (w.Scanning? ==> stopRequested && forall i :: 0 <= i < w.next && i < |queues| ==> queues[i] == [])
    && (w.Exited? ==> stopRequested && forall i :: 0 <= i < |queues| ==> queues[i] == [])
  }

  ghost predicate Inv(s: State) {
    && |s.workers| == |s.queues| > 0 && s.perWorker > 0
    && Conserved(s.queues, s.workers, s.accepted, s.finished, s.cancelled)
    && Counted(s.queues, s.workers, s.submitters, s.reserved, s.pending)
    && Capped(s)
    && OneAdmitted(s.submitters)
    && Draining(s.stopRequested, s.submitters, s.workers, s.queues)
    && (s.shutdown.Stopped? ==> forall w :: 0 <= w < |s.workers| ==> s.workers[w].Exited?)
    && (!s.shutdown.Running? ==> s.stopRequested)
    && (s.shutdown.Stopped? ==> !s.running)
  }

  // ----- Tallies under update -----

  lemma AddBoth(a: multiset<Task>, b: multiset<Task>, c: multiset<Task>, d: multiset<Task>, more: multiset<Task>)
    requires a + b == c + d
    ensures (a + more) + b == (c + more) + d
  {
    assert (a + more) + b == (a + b) + more;
    assert (c + more) + d == (c + d) + more;
  }

  lemma Cancels(a: multiset<Task>, b: multiset<Task>, c: multiset<Task>, d: multiset<Task>)
    requires a + (b + c) == d + b
    ensures d == a + c
  {
    forall x: Task ensures d[x] == (a + c)[x] {
      assert (a + (b + c))[x] == a[x] + b[x] + c[x];
    }
  }

  /** Replacing one queue changes the tally by what was put in and taken out. */
  lemma {:induction false} TasksUpdate(queues: seq<seq<Task>>, i: nat, q: seq<Task>)
    requires i < |queues|
    ensures Tasks(queues[i := q]) + multiset(queues[i]) == Tasks(queues) + multiset(q)
    decreases |queues|
  {
    var n, queues' := |queues| - 1, queues[i := q];
    if i == n {
      assert queues'[..i] == queues[..i];
      AddBoth(Tasks(queues[..i]), multiset(queues[i]), Tasks(queues[..i]), multiset(queues[i]), multiset(q));
      assert Tasks(queues') == Tasks(queues[..i]) + multiset(q);
    } else {
      assert queues'[..n] == queues[..n][i := q];
      TasksUpdate(queues[..n], i, q);
      AddBoth(Tasks(queues'[..n]), multiset(queues[i]), Tasks(queues[..n]), multiset(q), multiset(queues[n]));
      assert Tasks(queues') == Tasks(queues'[..n]) + multiset(queues'[n]);
    }
  }

  lemma TasksShrink(queues: seq<seq<Task>>, i: nat, q: seq<Task>, gone: multiset<Task>)
    requires i < |queues| && multiset(queues[i]) == multiset(q) + gone
    ensures Tasks(queues) == Tasks(queues[i := q]) + gone
  {
    hide Tasks;
    TasksUpdate(queues, i, q);
    Cancels(Tasks(queues[i := q]), multiset(q), gone, Tasks(queues));
  }

  lemma TasksGrow(queues: seq<seq<Task>>, i: nat, task: Task)
    requires i < |queues|
    ensures Tasks(queues[i := queues[i] + [task]]) == Tasks(queues) + multiset{task}
  {
    hide Tasks;
    var q := queues[i] + [task];
    TasksUpdate(queues, i, q);
    Cancels(Tasks(queues), multiset(queues[i]), multiset{task}, Tasks(queues[i := q]));
  }

  lemma {:induction false} RunningUpdate(workers: seq<Worker>, w: nat, x: Worker)
    requires w < |workers|
    ensures Running'(workers[w := x]) + InHand(workers[w]) == Running'(workers) + InHand(x)
    decreases |workers|
  {
    var n, workers' := |workers| - 1, workers[w := x];
    if w == n {
      assert workers'[..w] == workers[..w];
      AddBoth(Running'(workers[..w]), InHand(workers[w]), Running'(workers[..w]), InHand(workers[w]), InHand(x));
      assert Running'(workers') == Running'(workers[..w]) + InHand(x);
    } else {
      assert workers'[..n] == workers[..n][w := x];
      RunningUpdate(workers[..n], w, x);
      AddBoth(Running'(workers'[..n]), InHand(workers[w]), Running'(workers[..n]), InHand(x), InHand(workers[n]));
      assert Running'(workers') == Running'(workers'[..n]) + InHand(workers'[n]);
    }
  }

  lemma {:induction false} InFlightUpdate(xs: seq<Submitter>, i: nat, x: Submitter)
    requires i < |xs|
    ensures InFlight(xs[i := x]) + Holds(xs[i]) == InFlight(xs) + Holds(x)
    decreases |xs|
  {
    var xs' := xs[i := x];
    if i == |xs| - 1 {
      assert xs'[..i] == xs[..i];
    } else {
      assert xs'[..|xs| - 1] == xs[..|xs| - 1][i := x];
      InFlightUpdate(xs[..|xs| - 1], i, x);
    }
  }

  // ----- Submitters -----

  lemma SubmitterMoves(xs: seq<Submitter>, i: nat, x: Submitter)
    requires OneAdmitted(xs) && i < |xs| && (Locking(x) ==> LifecycleFree(xs) || Locking(xs[i]))
    ensures OneAdmitted(xs[i := x])
    ensures !Locking(x) && LifecycleFree(xs) ==> LifecycleFree(xs[i := x])
  {
    var xs' := xs[i := x];
    forall j: nat, k: nat | j < k < |xs'|
      ensures !(Locking(xs'[j]) && Locking(xs'[k]))
    {
      assert !(Locking(xs[j]) && Locking(xs[k]));
    }
  }

  lemma BeforeStop(submitters: seq<Submitter>, submitters': seq<Submitter>, workers: seq<Worker>,
                   queues: seq<seq<Task>>, queues': seq<seq<Task>>)
    requires Draining(false, submitters, workers, queues)
    ensures Draining(false, submitters', workers, queues')
  {
    forall w: nat | w < |workers| ensures Seen(false, workers[w], queues') {
      assert Seen(false, workers[w], queues);
    }
  }

  lemma LockedBeforeStop(stopRequested: bool, submitters: seq<Submitter>, workers: seq<Worker>, queues: seq<seq<Task>>, i: nat)
    requires Draining(stopRequested, submitters, workers, queues) && i < |submitters| && Locking(submitters[i])
    ensures !stopRequested
  {
  }

  /** The push of a submission: it happens only while no stop is requested. */
  lemma PushKeepsInv(s: State, i: nat, task: Task, index: nat, s': State)
    requires Inv(s) && i < |s.submitters| && s.submitters[i].Reserved? && index < |s.queues|
    requires |s.queues[index]| < s.perWorker
    requires s' == s.(queues := s.queues[index := s.queues[index] + [task]], pending := s.pending + 1,
                      accepted := s.accepted + multiset{task}, submitters := s.submitters[i := Resting])
    ensures Inv(s')
  {
    hide Tasks, Running', InFlight, OneAdmitted, Draining;
    TasksGrow(s.queues, index, task);
    InFlightUpdate(s.submitters, i, Resting);
    SubmitterMoves(s.submitters, i, Resting);
    LockedBeforeStop(s.stopRequested, s.submitters, s.workers, s.queues, i);
    BeforeStop(s.submitters, s'.submitters, s.workers, s.queues, s'.queues);
  }

  lemma SubmitKeepsInv(s: State, i: nat, a: SubmitAction)
    requires Inv(s) && i < |s.submitters| && SubmitStep(s, i, a).Some?
    ensures Inv(SubmitStep(s, i, a).value)
  {
    hide Tasks, Running', InFlight, OneAdmitted, Seen;
    var s' := SubmitStep(s, i, a).value;
    var x := s.submitters[i];
    var index := if x.Reserved? then (x.robin + x.offset) % |s.queues| else 0;
    if x.Reserved? && |s.queues[index]| < s.perWorker {
      PushKeepsInv(s, i, x.task, index, s');
    } else {
      InFlightUpdate(s.submitters, i, s'.submitters[i]);
      SubmitterMoves(s.submitters, i, s'.submitters[i]);
    }
  }

  // ----- Workers -----

  lemma ShrinkKeepsSeen(stopRequested: bool, workers: seq<Worker>, queues: seq<seq<Task>>, i: nat, q: seq<Task>)
    requires i < |queues| && (queues[i] == [] ==> q == [])
    requires forall w: nat :: w < |workers| ==> Seen(stopRequested, workers[w], queues)
    ensures forall w: nat :: w < |workers| ==> Seen(stopRequested, workers[w], queues[i := q])
  {
    forall w: nat | w < |workers| ensures Seen(stopRequested, workers[w], queues[i := q]) {
      assert Seen(stopRequested, workers[w], queues);
    }
  }

  lemma HandsAreNotEyes(stopRequested: bool, task: Task, queues: seq<seq<Task>>)
    ensures Seen(stopRequested, Executing(task), queues)
  {
  }

  /** A task moves from a queue into a worker's hands. */
  lemma TakeKeepsInv(s: State, w: nat, from: nat, q: seq<Task>, task: Task, s': State)
    requires Inv(s) && w < |s.workers| && from < |s.queues| && s.queues[from] != []
    requires !s.workers[w].Executing? && !s.workers[w].Exited?
    requires multiset(s.queues[from]) == multiset(q) + multiset{task} && |q| == |s.queues[from]| - 1
    requires s' == s.(queues := s.queues[from := q], reserved := s.reserved - 1, workers := s.workers[w := Executing(task)])
    ensures Inv(s')
  {
    hide Tasks, Running', InFlight, OneAdmitted, LifecycleFree, Seen;
    TasksShrink(s.queues, from, q, multiset{task});
    RunningUpdate(s.workers, w, Executing(task));
    assert Running'(s'.workers) == Running'(s.workers) + multiset{task};
    ShrinkKeepsSeen(s.stopRequested, s.workers, s.queues, from, q);
    HandsAreNotEyes(s.stopRequested, task, s'.queues);
  }

  /** A worker looks elsewhere without touching a queue. */
  lemma LookKeepsInv(s: State, w: nat, x: Worker)
    requires Inv(s) && w < |s.workers| && !s.workers[w].Executing? && !s.workers[w].Exited? && !x.Executing?
    requires Seen(s.stopRequested, x, s.queues)
    ensures Inv(s.(workers := s.workers[w := x]))
  {
    hide Tasks, Running', InFlight, OneAdmitted, LifecycleFree, Seen;
    RunningUpdate(s.workers, w, x);
    assert Running'(s.workers[w := x]) + multiset{} == Running'(s.workers[w := x]);
    assert Running'(s.workers) + multiset{} == Running'(s.workers);
  }

  lemma FinishKeepsInv(s: State, w: nat)
    requires Inv(s) && w < |s.workers| && s.workers[w].Executing?
    ensures Inv(WorkStep(s, w, Finish).value)
  {
    hide Tasks, Running', InFlight, OneAdmitted, LifecycleFree, Seen;
    var task := s.workers[w].task;
    RunningUpdate(s.workers, w, Looking);
    assert Running'(s.workers) == Running'(s.workers[w := Looking]) + multiset{task};
    LookingSees(s.stopRequested, s.queues);
  }

  lemma LookingSees(stopRequested: bool, queues: seq<seq<Task>>)
    ensures Seen(stopRequested, Looking, queues)
  {
  }

  /** What a scan adds to what the worker has seen. */
  lemma ScanSees(s: State, w: nat, a: WorkAction)
    requires Inv(s) && w < |s.workers| && WorkStep(s, w, a).Some?
    requires a.CheckStop? || a.Scan?
    ensures Seen(s.stopRequested, WorkStep(s, w, a).value.workers[w], s.queues)
  {
    hide Tasks, Running', InFlight, OneAdmitted, LifecycleFree, Conserved, Counted, Capped;
    assert Seen(s.stopRequested, s.workers[w], s.queues);
  }

  lemma TakeStepKeepsInv(s: State, w: nat, a: WorkAction)
    requires Inv(s) && w < |s.workers| && WorkStep(s, w, a).Some? && (a.TakeLocal? || a.Steal?)
    ensures Inv(WorkStep(s, w, a).value)
  {
    hide Inv;
    Shaped(s);
    var s' := WorkStep(s, w, a).value;
    if a.TakeLocal? && s.queues[w] != [] {
      var q := s.queues[w];
      assert q == [q[0]] + q[1..];
      TakeKeepsInv(s, w, w, q[1..], q[0], s');
    } else if a.Steal? && s'.workers[w].Executing? {
      var victim := (w + 1 + s.workers[w].offset) % |s.queues|;
      var q := s.queues[victim];
      assert q == q[..|q| - 1] + [q[|q| - 1]];
      TakeKeepsInv(s, w, victim, q[..|q| - 1], q[|q| - 1], s');
    } else {
      LookKeepsInv(s, w, s'.workers[w]);
    }
  }

  lemma Shaped(s: State)
    requires Inv(s)
    ensures |s.workers| == |s.queues| > 0
  {
  }

  lemma WorkKeepsInv(s: State, w: nat, a: WorkAction)
    requires Inv(s) && w < |s.workers| && WorkStep(s, w, a).Some?
    ensures Inv(WorkStep(s, w, a).value)
  {
    hide Inv;
    Shaped(s);
    match a {
      case TakeLocal => TakeStepKeepsInv(s, w, a);
      case Steal => TakeStepKeepsInv(s, w, a);
      case Finish => FinishKeepsInv(s, w);
      case CheckStop =>
        ScanSees(s, w, a);
        LookKeepsInv(s, w, WorkStep(s, w, a).value.workers[w]);
      case Scan =>
        ScanSees(s, w, a);
        LookKeepsInv(s, w, WorkStep(s, w, a).value.workers[w]);
    }
  }

  // ----- Cancelling and shutting down -----

  lemma CancelKeepsInv(s: State, i: nat, s': State)
    requires Inv(s) && i < |s.queues|
    requires s' == s.(queues := s.queues[i := []], reserved := s.reserved - |s.queues[i]|, pending := s.pending - |s.queues[i]|,
                      cancelled := s.cancelled + multiset(s.queues[i]), canceller := Cancelling(i + 1))
    ensures Inv(s')
  {
    hide Tasks, Running', InFlight, OneAdmitted, LifecycleFree, Seen;
    var gone := multiset(s.queues[i]);
    var empty: seq<Task> := [];
    assert multiset(s.queues[i]) == multiset(empty) + gone;
    TasksShrink(s.queues, i, empty, gone);
    Regroup(s.accepted, s.finished, s.cancelled, Tasks(s'.queues), gone, Running'(s.workers));
    ShrinkKeepsSeen(s.stopRequested, s.workers, s.queues, i, []);
  }

  lemma Regroup(accepted: multiset<Task>, finished: multiset<Task>, cancelled: multiset<Task>, left: multiset<Task>, gone: multiset<Task>, busy: multiset<Task>)
    requires accepted == finished + cancelled + (left + gone) + busy
    ensures accepted == finished + (cancelled + gone) + left + busy
  {
  }

  lemma OtherKeepsInv(s: State, a: Action)
    requires Inv(s) && !a.Submitting? && !a.Working? && OtherStep(s, a).Some?
    ensures Inv(OtherStep(s, a).value)
  {
    hide Tasks, Running', InFlight, OneAdmitted, LifecycleFree;
    var s' := OtherStep(s, a).value;
    if a.CancelNext? && s.canceller.next < |s.queues| {
      CancelKeepsInv(s, s.canceller.next, s');
    } else {
      assert s'.queues == s.queues && s'.workers == s.workers;
      forall w: nat | w < |s.workers| ensures Seen(s'.stopRequested, s.workers[w], s.queues) {
        assert Seen(s.stopRequested, s.workers[w], s.queues);
      }
    }
  }

  lemma StepKeepsInv(s: State, a: Action)
    requires Inv(s) && Step(s, a).Some?
    ensures Inv(Step(s, a).value)
  {
    hide Inv, SubmitStep, WorkStep, OtherStep;
    match a {
      case Submitting(i, x) => SubmitKeepsInv(s, i, x);
      case Working(w, x) => WorkKeepsInv(s, w, x);
      case _ => OtherKeepsInv(s, a);
    }
  }

  // ----- Whole runs -----

  /** A freshly started pool. */
  predicate Started(s: State) {
    && |s.workers| == |s.queues| > 0 && s.perWorker > 0
    && (forall i :: 0 <= i < |s.queues| ==> s.queues[i] == [])
    && (forall i :: 0 <= i < |s.workers| ==> s.workers[i] == Looking)
    && (forall i :: 0 <= i < |s.submitters| ==> s.submitters[i] == Resting)
    && s.reserved == s.pending == 0 && s.running && !s.stopRequested && s.canceller == Quiet && s.shutdown == Running
    && s.accepted == s.finished == s.cancelled == multiset{}
  }

  lemma {:induction false} NoTasks(queues: seq<seq<Task>>)
    requires forall i :: 0 <= i < |queues| ==> queues[i] == []
    ensures Tasks(queues) == multiset{}
  {
    if queues != [] { NoTasks(queues[..|queues| - 1]); }
  }

  lemma {:induction false} NoneRunning(workers: seq<Worker>)
    requires forall i :: 0 <= i < |workers| ==> !workers[i].Executing?
    ensures Running'(workers) == multiset{}
  {
    if workers != [] { NoneRunning(workers[..|workers| - 1]); }
  }

  lemma {:induction false} NoneInFlight(xs: seq<Submitter>)
    requires forall i :: 0 <= i < |xs| ==> Holds(xs[i]) == 0
    ensures InFlight(xs) == 0
  {
    if xs != [] { NoneInFlight(xs[..|xs| - 1]); }
  }

  lemma StartedIsSafe(s: State)
    requires Started(s)
    ensures Inv(s)
  {
    NoTasks(s.queues);
    NoneRunning(s.workers);
    NoneInFlight(s.submitters);
  }

  /** Any interleaving: each action is taken if it can be, and skipped otherwise. */
  function Run(s: State, actions: seq<Action>): (s': State)
    requires Inv(s)
    ensures Inv(s')
    decreases |actions|
  {
    if actions == [] then s
    else
      match Step(s, actions[0])
      case None => Run(s, actions[1..])
      case Some(s') =>
        StepKeepsInv(s, actions[0]);
        Run(s', actions[1..])
  }

  /** In every run, accepted tasks are exactly those finished, cancelled, queued
      or executing, each as often as it was accepted; queued tasks fit their
      reservations, their queues and the total cap; and the pending counter
      tells the truth. */
  lemma TasksAreConserved(start: State, actions: seq<Action>)
    requires Started(start)
    ensures Inv(start)
    ensures var s := Run(start, actions);
            && s.accepted == s.finished + s.cancelled + Tasks(s.queues) + Running'(s.workers)
            && |Tasks(s.queues)| <= s.reserved && (s.total != 0 ==> s.reserved <= s.total)
            && (forall i :: 0 <= i < |s.queues| ==> |s.queues[i]| <= s.perWorker)
            && s.pending == |Tasks(s.queues)| + |Running'(s.workers)|
  {
    StartedIsSafe(start);
    hide Run;
  }

  /** A task accepted once is finished or cancelled at most once, and never both. */
  lemma NeverTwice(start: State, actions: seq<Action>, task: Task)
    requires Started(start)
    ensures Inv(start)
    ensures var s := Run(start, actions);
            s.accepted[task] == 1 ==> s.finished[task] + s.cancelled[task] <= 1
  {
    StartedIsSafe(start);
    hide Run;
  }

  /** Once every worker has been joined all queues are empty, nothing is
      executing, and every accepted task was executed or cancelled exactly as
      often as it was accepted. */
  lemma ShutdownLeavesNothing(start: State, actions: seq<Action>)
    requires Started(start)
    ensures Inv(start)
    ensures var s := Run(start, actions);
            (forall w :: 0 <= w < |s.workers| ==> s.workers[w].Exited?) ==>
              && (forall i :: 0 <= i < |s.queues| ==> s.queues[i] == [])
              && s.pending == 0 && s.accepted == s.finished + s.cancelled
  {
    StartedIsSafe(start);
    var s := Run(start, actions);
    hide Run;
    if forall w :: 0 <= w < |s.workers| ==> s.workers[w].Exited? {
      assert Seen(s.stopRequested, s.workers[0], s.queues);
      NoTasks(s.queues);
      NoneRunning(s.workers);
    }
  }

  /** Even one worker that has left means that nothing is queued any more: a
      shutdown never abandons a task to a worker that is gone. */
  lemma NoWorkerLeavesWorkBehind(start: State, actions: seq<Action>, w: nat)
    requires Started(start)
    ensures Inv(start)
    ensures var s := Run(start, actions);
            w < |s.workers| && s.workers[w].Exited? ==> Tasks(s.queues) == multiset{}
  {
    StartedIsSafe(start);
    var s := Run(start, actions);
    hide Run;
    if w < |s.workers| && s.workers[w].Exited? {
      assert Seen(s.stopRequested, s.workers[w], s.queues);
      NoTasks(s.queues);
    }
  }

  // ----- Order -----

  /** A run together with the order of its pushes and completions. */
  datatype History = History(state: State, pushed: seq<Task>, done: seq<Task>)

  function PushedBy(s: State, a: Action): seq<Task> {
    if a.Submitting? && a.i < |s.submitters| && a.s.TryPush? && s.submitters[a.i].Reserved?
       && |s.queues| > 0 && |s.queues[(s.submitters[a.i].robin + s.submitters[a.i].offset) % |s.queues|]| < s.perWorker
    then [s.submitters[a.i].task] else []
  }

  function DoneBy(s: State, a: Action): seq<Task> {
    if a.Working? && a.w < |s.workers| && a.a.Finish? && s.workers[a.w].Executing? then [s.workers[a.w].task] else []
  }

  function Recorded(h: History, a: Action): History
    requires |h.state.workers| == |h.state.queues| > 0
  {
    match Step(h.state, a)
    case None => h
    case Some(s') => History(s', h.pushed + PushedBy(h.state, a), h.done + DoneBy(h.state, a))
  }

  function OneInHand(w: Worker): seq<Task> {
    if w.Executing? then [w.task] else []
  }

  /** The only worker's tasks, oldest first: done, in hand, queued. */
  ghost predicate InOrder(h: History) {
    && |h.state.workers| == |h.state.queues| == 1
    && h.pushed == h.done + OneInHand(h.state.workers[0]) + h.state.queues[0]
  }

  lemma SubmittingKeepsOrder(h: History, a: Action)
    requires InOrder(h) && a.Submitting? && Step(h.state, a).Some?
    ensures InOrder(Recorded(h, a))
  {
    hide WorkStep, OtherStep, LifecycleFree;
    var s, s', q := h.state, Step(h.state, a).value, h.state.queues[0];
    assert s'.workers == s.workers;
    if PushedBy(s, a) != [] {
      var x := s.submitters[a.i];
      assert (x.robin + x.offset) % 1 == 0;
      assert s'.queues[0] == q + [x.task];
      Append(h.done, OneInHand(s.workers[0]), q, [x.task]);
    } else {
      assert s'.queues == s.queues;
    }
  }

  lemma Append(a: seq<Task>, b: seq<Task>, c: seq<Task>, d: seq<Task>)
    ensures a + b + c + d == a + b + (c + d)
  {
  }

  lemma TakingKeepsOrder(h: History, w: nat)
    requires InOrder(h) && w < |h.state.workers| && WorkStep(h.state, w, TakeLocal).Some?
    ensures InOrder(Recorded(h, Working(w, TakeLocal)))
  {
    hide SubmitStep, OtherStep;
    var q := h.state.queues[0];
    if q != [] { assert q == [q[0]] + q[1..]; }
  }

  lemma FinishingKeepsOrder(h: History, w: nat)
    requires InOrder(h) && w < |h.state.workers| && WorkStep(h.state, w, Finish).Some?
    ensures InOrder(Recorded(h, Working(w, Finish)))
  {
    hide SubmitStep, OtherStep;
  }

  lemma LookingKeepsOrder(h: History, w: nat, a: WorkAction)
    requires InOrder(h) && w < |h.state.workers| && WorkStep(h.state, w, a).Some? && !a.TakeLocal? && !a.Finish?
    ensures InOrder(Recorded(h, Working(w, a)))
  {
    hide SubmitStep, OtherStep;
    var s, s' := h.state, WorkStep(h.state, w, a).value;
    if a.Steal? { assert (0 + 1 + s.workers[0].offset) % 1 == 0; }
    assert s'.queues == s.queues && OneInHand(s.workers[0]) == OneInHand(s'.workers[0]) == [];
  }

  lemma WorkingKeepsOrder(h: History, w: nat, a: WorkAction)
    requires InOrder(h) && w < |h.state.workers| && WorkStep(h.state, w, a).Some?
    ensures InOrder(Recorded(h, Working(w, a)))
  {
    hide InOrder, WorkStep, Recorded;
    if a.TakeLocal? {
      TakingKeepsOrder(h, w);
    } else if a.Finish? {
      FinishingKeepsOrder(h, w);
    } else {
      LookingKeepsOrder(h, w, a);
    }
  }

  lemma OtherKeepsOrder(h: History, a: Action)
    requires InOrder(h) && !a.Submitting? && !a.Working? && !a.CancelNext? && Step(h.state, a).Some?
    ensures InOrder(Recorded(h, a))
  {
    hide SubmitStep, WorkStep, LifecycleFree;
  }

  function RecordedRun(h: History, actions: seq<Action>): History
    requires |h.state.workers| == |h.state.queues| > 0
    decreases |actions|
  {
    if actions == [] then h
    else
      var next := Recorded(h, actions[0]);
      StepKeepsShape(h.state, actions[0]);
      RecordedRun(next, actions[1..])
  }

  lemma SubmitKeepsShape(s: State, i: nat, a: SubmitAction)
    requires i < |s.submitters| && |s.workers| == |s.queues| > 0 && SubmitStep(s, i, a).Some?
    ensures var s' := SubmitStep(s, i, a).value; |s'.workers| == |s.workers| && |s'.queues| == |s.queues|
  {
    hide LifecycleFree;
  }

  lemma WorkKeepsShape(s: State, w: nat, a: WorkAction)
    requires w < |s.workers| == |s.queues| && WorkStep(s, w, a).Some?
    ensures var s' := WorkStep(s, w, a).value; |s'.workers| == |s.workers| && |s'.queues| == |s.queues|
  {
  }

  lemma StepKeepsShape(s: State, a: Action)
    requires |s.workers| == |s.queues| > 0
    ensures Step(s, a).Some? ==> |Step(s, a).value.workers| == |s.workers| && |Step(s, a).value.queues| == |s.queues|
  {
    hide SubmitStep, WorkStep, LifecycleFree;
    if Step(s, a).Some? {
      match a {
        case Submitting(i, x) => SubmitKeepsShape(s, i, x);
        case Working(w, x) => WorkKeepsShape(s, w, x);
        case _ =>
      }
    }
  }

  lemma {:induction false} RunKeepsOrder(h: History, actions: seq<Action>)
    requires InOrder(h) && forall i :: 0 <= i < |actions| ==> !actions[i].CancelNext?
    ensures InOrder(RecordedRun(h, actions))
    decreases |actions|
  {
    hide Recorded, Step;
    if actions != [] {
      OneStepInOrder(h, actions[0]);
      RunKeepsOrder(Recorded(h, actions[0]), actions[1..]);
    }
  }

  lemma OneStepInOrder(h: History, a: Action)
    requires InOrder(h) && !a.CancelNext?
    ensures InOrder(Recorded(h, a))
  {
    if Step(h.state, a).Some? {
      hide SubmitStep, WorkStep, OtherStep, PushedBy, DoneBy;
      if a.Submitting? {
        SubmittingKeepsOrder(h, a);
      } else if a.Working? {
        WorkingKeepsOrder(h, a.w, a.a);
      } else {
        OtherKeepsOrder(h, a);
      }
    }
  }

  /** A pool of one worker, left uncancelled, completes tasks in the order in
      which they were accepted, whatever its submitters do. */
  lemma OneWorkerIsFirstInFirstOut(start: State, actions: seq<Action>)
    requires Started(start) && |start.workers| == 1 && forall i :: 0 <= i < |actions| ==> !actions[i].CancelNext?
    ensures var h := RecordedRun(History(start, [], []), actions);
            h.done <= h.pushed
  {
    hide RecordedRun;
    RunKeepsOrder(History(start, [], []), actions);
  }
}
