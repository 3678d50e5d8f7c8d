/** Host pacing in exact arithmetic: cycles are granted by the clock, charged by
    execution, and thrown away when the host falls too far behind. */
module Timing {

  datatype Config = Config(baseClockHz: real, minCycles: real, maxCatchUp: int, batchInterval: int)

  datatype Control = Control(paused: bool, throttled: bool, multiplier: real, singleStep: bool)

  /** `granted`, `charged` and `forgiven` record every cycle that entered or left
      the budget; the code keeps only `discarded`. */
  datatype Engine = Engine(
    budget: real, debt: real, clock: real, lastTick: int, control: Control, discarded: real,
    granted: real, charged: real, forgiven: real)

  function Max(a: real, b: real): real {
    if a < b then b else a
  }

  /** Times are whole nanoseconds. */
  function Seconds(ns: int): real {
    ns as real / 1_000_000_000.0
  }

  /** What the clock grants in a stretch of time. */
  function Cycles(ns: int, clock: real): real {
    Seconds(ns) * clock
  }

  function CeilNanoseconds(seconds: real): int {
    -((-(seconds * 1_000_000_000.0)).Floor)
  }

  // ----- Operations -----

  /** The nearest batch interval from a microsecond to two milliseconds. */
  function Clamped(interval: int): (r: int)
    ensures 1_000 <= r <= 2_000_000
    ensures 1_000 <= interval <= 2_000_000 ==> r == interval
    ensures (interval < 1_000 ==> r == 1_000) && (interval > 2_000_000 ==> r == 2_000_000)
  {
    if interval < 1_000 then 1_000 else if interval > 2_000_000 then 2_000_000 else interval
  }

  /** The guest clock at the current speed. */
  function Clock(c: Config, control: Control): real {
    c.baseClockHz * control.multiplier
  }

  /** The most budget that is ever carried. */
  function Cap(c: Config, clock: real): real {
    Max(c.minCycles, Cycles(c.maxCatchUp, clock))
  }

  function WithBudget(e: Engine, budget: real): Engine {
    e.(budget := budget, debt := Max(0.0, -budget))
  }

  function Started(c: Config, e: Engine, now: int): Engine {
    e.(lastTick := now, budget := 0.0, debt := 0.0, clock := Clock(c, e.control))
  }

  function Controlled(c: Config, e: Engine, control: Control): Engine {
    var kept := if control.multiplier <= 0.0 then control.(multiplier := 1.0) else control;
    e.(control := kept, clock := Clock(c, kept), debt := Max(0.0, -e.budget))
  }

  function Updated(c: Config, e: Engine, now: int): Engine {
    var clock := Clock(c, e.control);
    if e.control.paused then e.(clock := clock, lastTick := now)
    else
      var grant := Cycles(now - e.lastTick, clock);
      var filled := e.budget + grant;
      var excess := Max(0.0, filled - Cap(c, clock));
      WithBudget(e, filled - excess).(clock := clock, lastTick := now, granted := e.granted + grant, discarded := e.discarded + excess)
  }

  predicate MayExecute(c: Config, e: Engine) {
    if e.control.paused then e.control.singleStep
    else if !e.control.throttled then true
    else e.budget >= c.minCycles
  }

  /** While nothing is metered, what the budget could not pay for is written off. */
  function WrittenOff(e: Engine, charge: real): real {
    if !e.control.throttled || e.control.paused then Max(0.0, charge - e.budget) else 0.0
  }

  function Charged(c: Config, e: Engine, retired: real): Engine {
    var charge := Max(c.minCycles, retired);
    var left := if !e.control.throttled || e.control.paused then Max(0.0, e.budget - charge) else e.budget - charge;
    WithBudget(e, left).(
      charged := e.charged + charge, forgiven := e.forgiven + WrittenOff(e, charge),
      control := if e.control.paused && e.control.singleStep then e.control.(singleStep := false) else e.control)
  }

  /** The budget a batch starts with: an interval's worth, or what catch-up allows. */
  function Target(c: Config, clock: real): real {
    var most := if c.maxCatchUp < 0 then 0 else c.maxCatchUp;
    Max(c.minCycles, Cycles(if most < c.batchInterval then most else c.batchInterval, clock))
  }

  /** How long after the last update the next batch is due. */
  function Delay(c: Config, e: Engine): int
    requires e.clock > 0.0
  {
    CeilNanoseconds((Target(c, e.clock) - e.budget) / e.clock)
  }

  function BatchWake(c: Config, e: Engine, now: int): int {
    if e.control.paused then if e.control.singleStep then now else now + c.batchInterval
    else if !e.control.throttled then now
    else if e.clock <= 0.0 then now + c.batchInterval
    else if e.budget >= c.minCycles then now
    else
      var due := e.lastTick + Delay(c, e);
      var wake := if now + c.batchInterval < due then now + c.batchInterval else due;
      if now < wake then wake else now
  }

  // ----- The engine object -----

  class TimingEngine {
    var config: Config
    var control: Control
    var cycleBudget: real
    var cycleDebt: real
    var effectiveClockHz: real
    var discardedCyclesTotal: real
    var lastTick: int
    ghost var granted: real
    ghost var charged: real
    ghost var forgiven: real

    ghost function State(): Engine
      reads this
    {
      Engine(cycleBudget, cycleDebt, effectiveClockHz, lastTick, control, discardedCyclesTotal, granted, charged, forgiven)
    }

    constructor (config: Config, multiplier: real, throttled: bool)
      ensures this.config == config.(batchInterval := Clamped(config.batchInterval))
      ensures control == Control(false, throttled, multiplier, false) && effectiveClockHz == config.baseClockHz * multiplier
      ensures cycleBudget == cycleDebt == discardedCyclesTotal == granted == charged == forgiven == 0.0
    {
      this.config := config.(batchInterval := Clamped(config.batchInterval));
      control := Control(false, throttled, multiplier, false);
      effectiveClockHz := config.baseClockHz * multiplier;
      cycleBudget, cycleDebt, discardedCyclesTotal, granted, charged, forgiven, lastTick := 0.0, 0.0, 0.0, 0.0, 0.0, 0.0, 0;
    }

    method UpdateCycleDebt()
      modifies `cycleDebt
      ensures cycleDebt == Max(0.0, -cycleBudget)
    {
      cycleDebt := Max(0.0, -cycleBudget);
    }

    method Start(now: int)
      modifies this
      ensures config == old(config) && State() == Started(config, old(State()), now)
    {
      lastTick := now;
      cycleBudget, cycleDebt := 0.0, 0.0;
      effectiveClockHz := Clock(config, control);
    }

    method ApplyControl(next: Control)
      modifies this
      ensures config == old(config) && State() == Controlled(config, old(State()), next)
    {
      control := next;
      if control.multiplier <= 0.0 { control := control.(multiplier := 1.0); }
      effectiveClockHz := Clock(config, control);
      UpdateCycleDebt();
    }

    method Update(now: int)
      modifies this
      ensures config == old(config) && State() == Updated(config, old(State()), now)
    {
      effectiveClockHz := Clock(config, control);
      if control.paused {
        lastTick := now;
        return;
      }
      hide Cycles, Cap, Clock;
      var grant := Cycles(now - lastTick, effectiveClockHz);
      lastTick := now;
      cycleBudget := cycleBudget + grant;
      granted := granted + grant;
      var maxBudget := Cap(config, effectiveClockHz);
      if cycleBudget > maxBudget {
        discardedCyclesTotal := discardedCyclesTotal + (cycleBudget - maxBudget);
        cycleBudget := maxBudget;
      }
      UpdateCycleDebt();
    }

    method Charge(retired: real)
      modifies this
      ensures config == old(config) && State() == Charged(config, old(State()), retired)
    {
      var charge := Max(config.minCycles, retired);
      charged, forgiven := charged + charge, forgiven + WrittenOff(State(), charge);
      if !control.throttled || control.paused {
        cycleBudget := Max(0.0, cycleBudget - charge);
      } else {
        cycleBudget := cycleBudget - charge;
      }
      UpdateCycleDebt();
      if control.paused && control.singleStep { control := control.(singleStep := false); }
    }

    method NextBatchWakeTime(now: int) returns (wake: int)
      ensures wake == BatchWake(config, State(), now)
    {
      if control.paused { return if control.singleStep then now else now + config.batchInterval; }
      if !control.throttled { return now; }
      if effectiveClockHz <= 0.0 { return now + config.batchInterval; }
      if cycleBudget >= config.minCycles { return now; }
      hide Target, CeilNanoseconds;
      var due := lastTick + CeilNanoseconds((Target(config, effectiveClockHz) - cycleBudget) / effectiveClockHz);
      wake := if now + config.batchInterval < due then now + config.batchInterval else due;
      if wake < now { wake := now; }
    }
  }

  // ----- Runs -----

  datatype Action = Update(now: int) | Charge(retired: real) | Apply(control: Control)

  /** Time does not run backwards, and only an engine that may execute is charged. */
  predicate Allowed(c: Config, e: Engine, a: Action) {
    match a
    case Update(now) => e.lastTick <= now
    case Charge(_) => MayExecute(c, e)
    case Apply(_) => true
  }

  function Next(c: Config, e: Engine, a: Action): Engine {
    match a
    case Update(now) => Updated(c, e, now)
    case Charge(retired) => Charged(c, e, retired)
    case Apply(control) => Controlled(c, e, control)
  }

  function Run(c: Config, e: Engine, actions: seq<Action>): Engine
    decreases |actions|
  {
    if actions == [] then e
    else Run(c, if Allowed(c, e, actions[0]) then Next(c, e, actions[0]) else e, actions[1..])
  }

  predicate Fresh(c: Config, e: Engine) {
    e.budget == e.discarded == e.granted == e.charged == e.forgiven == 0.0 && e.clock == Clock(c, e.control)
  }

  predicate Balanced(e: Engine) {
    e.granted + e.forgiven == e.budget + e.charged + e.discarded
  }

  /** No cycle appears or vanishes, whatever is paused, unthrottled or sped up on
      the way: what the clock granted, and what was written off while nothing was
      metered, is budget, charge or discard. */
  lemma {:induction false} CyclesAreConserved(c: Config, e: Engine, actions: seq<Action>)
    requires Balanced(e)
    ensures Balanced(Run(c, e, actions))
    decreases |actions|
  {
    if actions != [] {
      var next := if Allowed(c, e, actions[0]) then Next(c, e, actions[0]) else e;
      CyclesAreConserved(c, next, actions[1..]);
    }
  }

  /** What the host has executed, read off the actions: each charge that was allowed
      costs what it retired, and never less than an instruction. */
  function Executed(c: Config, e: Engine, actions: seq<Action>): real
    decreases |actions|
  {
    if actions == [] then 0.0
    else if !Allowed(c, e, actions[0]) then Executed(c, e, actions[1..])
    else
      var a, later := actions[0], Executed(c, Next(c, e, actions[0]), actions[1..]);
      if !a.Charge? then later else if a.retired < c.minCycles then c.minCycles + later else a.retired + later
  }

  /** The engine's own account of what was charged is what was executed. */
  lemma {:induction false} ChargedIsExecuted(c: Config, e: Engine, actions: seq<Action>)
    ensures Run(c, e, actions).charged == e.charged + Executed(c, e, actions)
    decreases |actions|
  {
    if actions != [] {
      var next := if Allowed(c, e, actions[0]) then Next(c, e, actions[0]) else e;
      ChargedIsExecuted(c, next, actions[1..]);
    }
  }

  /** A metered charge takes what was retired, at least the minimum, off the budget and
      leaves the rest to be paid back; unmetered, the budget stops at zero. */
  lemma ChargeTakes(c: Config, e: Engine, retired: real)
    ensures var cost := if retired < c.minCycles then c.minCycles else retired;
            var s := Charged(c, e, retired);
            && (e.control.throttled && !e.control.paused ==> s.budget == e.budget - cost)
            && (!e.control.throttled || e.control.paused ==> s.budget == if e.budget < cost then 0.0 else e.budget - cost)
            && s.debt == (if s.budget < 0.0 then -s.budget else 0.0)
            && (s.control.singleStep <==> e.control.singleStep && !e.control.paused)
            && s.clock == e.clock && s.lastTick == e.lastTick && s.discarded == e.discarded
  {
  }

  /** New controls keep the budget and set the clock at once; a speed that is not positive
      counts as one. */
  lemma ControlApplies(c: Config, e: Engine, control: Control)
    ensures var s := Controlled(c, e, control);
            && s.budget == e.budget && s.lastTick == e.lastTick && s.discarded == e.discarded
            && s.control == control.(multiplier := s.control.multiplier)
            && s.control.multiplier == (if control.multiplier > 0.0 then control.multiplier else 1.0)
            && s.clock == c.baseClockHz * s.control.multiplier
            && s.debt == if s.budget < 0.0 then -s.budget else 0.0
  {
  }

  /** A paused engine executes one instruction for each single step asked for; an engine
      that runs unthrottled always may, and a throttled one with a minimum in hand. */
  lemma ExecutesWhenAllowed(c: Config, e: Engine, retired: real)
    ensures e.control.paused && e.control.singleStep ==> MayExecute(c, e) && !MayExecute(c, Charged(c, e, retired))
    ensures e.control.paused && !e.control.singleStep ==> !MayExecute(c, e)
    ensures !e.control.paused && !e.control.throttled ==> MayExecute(c, e)
    ensures !e.control.paused && e.control.throttled ==> (MayExecute(c, e) <==> c.minCycles <= e.budget)
  {
  }

  /** An update adds elapsed time times clock and throws away exactly what does not fit
      under the cap; while paused it adds nothing. */
  lemma UpdateGrants(c: Config, e: Engine, now: int)
    ensures var s := Updated(c, e, now);
            var clock := c.baseClockHz * e.control.multiplier;
            var filled := e.budget + (now - e.lastTick) as real / 1_000_000_000.0 * clock;
            var catchUp := c.maxCatchUp as real / 1_000_000_000.0 * clock;
            var cap := if catchUp < c.minCycles then c.minCycles else catchUp;
            && s.clock == clock && s.lastTick == now && s.control == e.control
            && (e.control.paused ==> s.budget == e.budget && s.discarded == e.discarded)
            && (!e.control.paused ==>
                  && s.budget == (if filled > cap then cap else filled)
                  && s.discarded - e.discarded == filled - s.budget
                  && s.debt == if s.budget < 0.0 then -s.budget else 0.0)
  {
  }

  /** Throttled and running, with controls left alone, and no single charge above
      `largest`. */
  predicate Steady(actions: seq<Action>, largest: real) {
    forall i :: 0 <= i < |actions| ==> !actions[i].Apply? && (actions[i].Charge? ==> actions[i].retired <= largest)
  }

  predicate Paced(c: Config, e: Engine, start: int, clock: real, largest: real) {
    && Balanced(e) && e.forgiven == 0.0
    && e.control.throttled && !e.control.paused
    && Clock(c, e.control) == clock == e.clock
    && e.granted == Cycles(e.lastTick - start, clock)
    && c.minCycles - largest <= e.budget <= Max(0.0, Cap(c, clock))
  }

  lemma SecondsAdd(a: int, b: int)
    ensures Seconds(a) + Seconds(b) == Seconds(a + b)
  {
  }

  lemma Distribute(a: real, b: real, x: real)
    ensures (a + b) * x == a * x + b * x
  {
  }

  lemma CyclesAdd(a: int, b: int, clock: real)
    ensures Cycles(a, clock) + Cycles(b, clock) == Cycles(a + b, clock)
  {
    hide Seconds;
    SecondsAdd(a, b);
    Distribute(Seconds(a), Seconds(b), clock);
  }

  lemma Product(a: real, b: real)
    requires a >= 0.0 && b >= 0.0
    ensures a * b >= 0.0
  {
  }

  lemma CyclesMonotone(a: int, b: int, clock: real)
    requires clock >= 0.0 && a <= b
    ensures Cycles(a, clock) <= Cycles(b, clock)
  {
    CyclesAdd(a, b - a, clock);
    assert Seconds(b - a) >= 0.0;
    hide Seconds;
    Product(Seconds(b - a), clock);
  }

  lemma NoTime(clock: real)
    ensures Cycles(0, clock) == 0.0
  {
  }

  lemma UpdateStaysPaced(c: Config, e: Engine, start: int, clock: real, largest: real, now: int)
    requires Paced(c, e, start, clock, largest) && clock >= 0.0 && largest >= c.minCycles >= 0.0 && e.lastTick <= now
    ensures Paced(c, Updated(c, e, now), start, clock, largest)
  {
    CapIsEnough(c, clock);
    hide Cycles, Cap, Clock;
    CyclesAdd(e.lastTick - start, now - e.lastTick, clock);
    CyclesMonotone(0, now - e.lastTick, clock);
    NoTime(clock);
  }

  lemma CapIsEnough(c: Config, clock: real)
    ensures Cap(c, clock) >= c.minCycles
  {
  }

  lemma {:induction false} StaysPaced(c: Config, e: Engine, start: int, clock: real, largest: real, actions: seq<Action>)
    requires Paced(c, e, start, clock, largest) && Steady(actions, largest) && clock >= 0.0
    requires largest >= c.minCycles >= 0.0
    ensures Paced(c, Run(c, e, actions), start, clock, largest)
    decreases |actions|
  {
    if actions != [] {
      hide Cycles, Cap, Updated, Clock;
      var a := actions[0];
      if a.Update? && Allowed(c, e, a) { UpdateStaysPaced(c, e, start, clock, largest, a.now); }
      var next := if Allowed(c, e, a) then Next(c, e, a) else e;
      StaysPaced(c, next, start, clock, largest, actions[1..]);
    }
  }

  /** Over any throttled run what was executed, together with what was thrown away,
      never exceeds elapsed time times clock by more than one charge less the minimum,
      and never falls behind by more than the catch-up cap: there is no drift. */
  lemma PacingNeverDrifts(c: Config, e: Engine, actions: seq<Action>, largest: real)
    requires Fresh(c, e) && e.control.throttled && !e.control.paused && e.clock >= 0.0
    requires Steady(actions, largest) && largest >= c.minCycles >= 0.0
    ensures var s := Run(c, e, actions);
            var elapsed := Cycles(s.lastTick - e.lastTick, e.clock);
            && elapsed == s.budget + Executed(c, e, actions) + s.discarded
            && Executed(c, e, actions) + s.discarded <= elapsed + (largest - c.minCycles)
            && elapsed - Cap(c, e.clock) <= Executed(c, e, actions) + s.discarded
  {
    NoTime(e.clock);
    CapIsEnough(c, e.clock);
    ChargedIsExecuted(c, e, actions);
    hide Cycles, Cap, Run, Clock, Executed;
    StaysPaced(c, e, e.lastTick, e.clock, largest, actions);
  }

  // ----- Waking -----

  /** A batch never wakes in the past and never sleeps past one interval, so a
      control change waits at most that long. */
  lemma WakeIsBounded(c: Config, e: Engine, now: int)
    requires c.batchInterval > 0
    ensures now <= BatchWake(c, e, now) <= now + c.batchInterval
  {
  }

  /** When the next batch wakes: at once while there is something to do, after a whole
      interval while there is not, and otherwise when the budget is filled, but neither in
      the past nor more than an interval from now. */
  lemma WakesWhenDue(c: Config, e: Engine, now: int)
    requires c.batchInterval >= 0
    ensures var wake, later := BatchWake(c, e, now), now + c.batchInterval;
            && (e.control.paused ==> wake == if e.control.singleStep then now else later)
            && (!e.control.paused && !e.control.throttled ==> wake == now)
            && (!e.control.paused && e.control.throttled && e.clock <= 0.0 ==> wake == later)
            && (!e.control.paused && e.control.throttled && e.clock > 0.0 && e.budget >= c.minCycles ==> wake == now)
            && (!e.control.paused && e.control.throttled && e.clock > 0.0 && e.budget < c.minCycles ==>
                  var due := e.lastTick + Delay(c, e);
                  && (due < now ==> wake == now) && (due > later ==> wake == later)
                  && (now <= due <= later ==> wake == due))
  {
  }

  lemma CeilBounds(x: real)
    ensures x <= Seconds(CeilNanoseconds(x)) < x + Seconds(1)
  {
    var scaled := x * 1_000_000_000.0;
    var n := CeilNanoseconds(x);
    assert scaled <= n as real < scaled + 1.0;
  }

  lemma QuotientTimes(a: real, clock: real)
    requires clock > 0.0
    ensures (a / clock) * clock == a
  {
  }

  lemma ScaleLess(s: real, t: real, clock: real)
    requires clock > 0.0 && s < t
    ensures s * clock < t * clock
  {
  }

  /** The delay is the shortest whole number of nanoseconds that fills the budget
      to its target. */
  lemma DelayFills(c: Config, e: Engine)
    requires e.clock > 0.0
    ensures Target(c, e.clock) - e.budget <= Cycles(Delay(c, e), e.clock) < Target(c, e.clock) - e.budget + Cycles(1, e.clock)
  {
    hide Target;
    var missing := Target(c, e.clock) - e.budget;
    var need := missing / e.clock;
    CeilBounds(need);
    QuotientTimes(missing, e.clock);
    hide Seconds, CeilNanoseconds;
    var wait, tick := Seconds(Delay(c, e)), Seconds(1);
    assert need <= wait < need + tick;
    if need < wait { ScaleLess(need, wait, e.clock); }
    ScaleLess(wait, need + tick, e.clock);
    Distribute(need, tick, e.clock);
    assert Cycles(1, e.clock) == tick * e.clock;
    assert Cycles(Delay(c, e), e.clock) == wait * e.clock;
  }

  /** Waiting for a batch that is not cut short by the polling interval is enough:
      updating then, or later, lets an instruction execute. */
  lemma WakingEnables(c: Config, e: Engine, now: int, at: int)
    requires e.control.throttled && !e.control.paused && e.clock == Clock(c, e.control) > 0.0
    requires e.budget < c.minCycles
    requires e.lastTick + Delay(c, e) <= now + c.batchInterval && at >= BatchWake(c, e, now)
    ensures MayExecute(c, Updated(c, e, at))
  {
    DelayFills(c, e);
    assert at >= e.lastTick + Delay(c, e);
    CapIsEnough(c, e.clock);
    assert Target(c, e.clock) >= c.minCycles;
    hide Cycles, Cap, Target, Delay, Clock;
    CyclesMonotone(Delay(c, e), at - e.lastTick, e.clock);
  }

  /** Waking exactly when the batch is due throws away less than a nanosecond's
      worth of cycles. */
  lemma WakingOnTimeKeepsCycles(c: Config, e: Engine)
    requires e.control.throttled && !e.control.paused && e.clock == Clock(c, e.control) > 0.0
    requires e.budget < c.minCycles && c.minCycles >= 0.0
    ensures Updated(c, e, e.lastTick + Delay(c, e)).discarded < e.discarded + Cycles(1, e.clock)
  {
    DelayFills(c, e);
    TargetWithinCap(c, e.clock);
    NoTime(e.clock);
    hide Cycles, Cap, Target, Delay, Clock;
    assert e.lastTick + Delay(c, e) - e.lastTick == Delay(c, e);
    OneIsPositive(e.clock);
  }

  /** When the batch is due the budget holds an interval's worth of cycles, or what
      catching up allows if that is less, and at least one instruction. */
  lemma BatchIsFull(c: Config, e: Engine)
    requires e.control.throttled && !e.control.paused && e.clock == Clock(c, e.control) > 0.0
    requires e.budget < c.minCycles && c.minCycles >= 0.0
    ensures var s := Updated(c, e, e.lastTick + Delay(c, e));
            var most := if c.maxCatchUp <= 0 then 0 else c.maxCatchUp;
            && s.budget >= c.minCycles
            && s.budget >= (if c.batchInterval <= most then c.batchInterval else most) as real / 1_000_000_000.0 * e.clock
  {
    DelayFills(c, e);
    TargetWithinCap(c, e.clock);
    var most := if c.maxCatchUp <= 0 then 0 else c.maxCatchUp;
    var least := if c.batchInterval <= most then c.batchInterval else most;
    assert Target(c, e.clock) >= c.minCycles && Target(c, e.clock) >= Cycles(least, e.clock);
    assert Cycles(least, e.clock) == least as real / 1_000_000_000.0 * e.clock;
    hide Cycles, Cap, Target, Delay, Clock;
    assert e.lastTick + Delay(c, e) - e.lastTick == Delay(c, e);
  }

  lemma OneIsPositive(clock: real)
    requires clock > 0.0
    ensures Cycles(1, clock) > 0.0
  {
  }

  lemma TargetWithinCap(c: Config, clock: real)
    requires clock > 0.0 && c.minCycles >= 0.0
    ensures Target(c, clock) <= Cap(c, clock)
  {
    hide Cycles;
    NoTime(clock);
    var most := if c.maxCatchUp < 0 then 0 else c.maxCatchUp;
    CyclesMonotone(if most < c.batchInterval then most else c.batchInterval, most, clock);
  }
}
