/** The single-producer single-consumer ring with wrapping 64-bit counters, and the
    capture buffer that stops at its first loss. */
module TraceQueues {
  import opened Bits
  import opened Wrappers

  const WORD: nat := 0x1_0000_0000_0000_0000

  /** A capacity as the ring demands it: more than one, and a divisor of 2^64. */
  predicate Ringlike(capacity: nat) {
    1 < capacity < WORD && WORD % capacity == 0
  }

  function Bump(counter: nat): nat {
    (counter + 1) % WORD
  }

  // ----- Counters that wrap -----

  /** The slot a wrapped counter names is the slot of the true count. */
  lemma SlotOf(count: nat, capacity: nat)
    requires Ringlike(capacity)
    ensures count % WORD % capacity == count % capacity
  {
    var k := WORD / capacity;
    assert capacity * k == WORD;
    ModOfMod(count, capacity, k);
  }

  lemma WrappedBump(count: nat)
    ensures Bump(count % WORD) == (count + 1) % WORD
  {
    var q, r := count / WORD, count % WORD;
    if r + 1 == WORD {
      DivModUnique(count + 1, WORD, q + 1, 0);
    } else {
      DivModUnique(count + 1, WORD, q, r + 1);
    }
  }

  /** The wrapped difference is the true one, and wrapped counters are equal
      exactly when the true ones are. */
  lemma WrappedDifference(high: nat, low: nat)
    requires low <= high < low + WORD
    ensures (high % WORD - low % WORD) % WORD == high - low
    ensures high % WORD == low % WORD <==> high == low
  {
    var q0, r0, q1, r1 := high / WORD, high % WORD, low / WORD, low % WORD;
    assert high - low == (q0 - q1) * WORD + (r0 - r1);
    DivModUnique(r0 - r1, WORD, q1 - q0, high - low);
  }

  /** Two counts less than a capacity apart never share a slot. */
  lemma SlotsDiffer(a: nat, b: nat, capacity: nat)
    requires capacity > 0 && a < b < a + capacity
    ensures a % capacity != b % capacity
  {
    if a % capacity == b % capacity {
      var k := b / capacity - a / capacity;
      assert b - a == k * capacity;
      if k > 0 { MulGrows(k, capacity); }
      assert false;
    }
  }

  // ----- The ring under interleaving -----

  datatype Producer<T> = Ready | Admitted(value: T) | Written(value: T)

  datatype Consumer<T> = Waiting | Reading | Holding(value: T)

  /** `pushed` and `popped` record everything accepted and everything returned. */
  datatype Ring<T> = Ring(
    slots: seq<T>, head: nat, tail: nat, producer: Producer<T>, consumer: Consumer<T>,
    pushed: seq<T>, popped: seq<T>)

  datatype RingAction<T> = Admit(value: T) | WriteSlot | PublishHead | FindItem | ReadSlot | PublishTail

  /** Each atomic step of the two lanes. */
  function RingStep<T>(s: Ring<T>, a: RingAction<T>): Option<Ring<T>>
    requires |s.slots| > 0
  {
    var capacity := |s.slots|;
    match a
    case Admit(value) =>
      if !s.producer.Ready? then None
      else if (s.head - s.tail) % WORD == capacity then Some(s)
      else Some(s.(producer := Admitted(value)))
    case WriteSlot =>
      if !s.producer.Admitted? then None
      else Some(s.(slots := s.slots[s.head % capacity := s.producer.value], producer := Written(s.producer.value)))
    case PublishHead =>
      if !s.producer.Written? then None
      else Some(s.(head := Bump(s.head), producer := Ready, pushed := s.pushed + [s.producer.value]))
    case FindItem =>
      if !s.consumer.Waiting? then None
      else if s.tail == s.head then Some(s)
      else Some(s.(consumer := Reading))
    case ReadSlot =>
      if !s.consumer.Reading? then None
      else Some(s.(consumer := Holding(s.slots[s.tail % capacity])))
    case PublishTail =>
      if !s.consumer.Holding? then None
      else Some(s.(tail := Bump(s.tail), consumer := Waiting, popped := s.popped + [s.consumer.value]))
  }

  /** Everything between the two counts is in its slot. */
  ghost predicate Held<T>(slots: seq<T>, pushed: seq<T>, from: nat)
    requires |slots| > 0
  {
    forall i: nat :: from <= i < |pushed| ==> slots[i % |slots|] == pushed[i]
  }

  ghost predicate RingInv<T>(s: Ring<T>) {
    var capacity, h, t := |s.slots|, |s.pushed|, |s.popped|;
    && Ringlike(capacity)
    && s.head == h % WORD && s.tail == t % WORD
    && t <= h <= t + capacity
    && s.popped <= s.pushed
    && Held(s.slots, s.pushed, t)
    && (!s.producer.Ready? ==> h < t + capacity)
    && (s.producer.Written? ==> s.slots[h % capacity] == s.producer.value)
    && (!s.consumer.Waiting? ==> t < h)
    && (s.consumer.Holding? ==> s.consumer.value == s.pushed[t])
  }

  /** A push is refused exactly when the ring is full, wherever the counters are. */
  lemma RefusedWhenFull<T>(s: Ring<T>, value: T)
    requires RingInv(s) && s.producer.Ready?
    ensures RingStep(s, Admit(value)) == Some(s) <==> |s.pushed| - |s.popped| == |s.slots|
  {
    WrappedDifference(|s.pushed|, |s.popped|);
    assert s.(producer := Admitted(value)).producer != s.producer;
  }

  /** A pop comes back empty exactly when everything pushed has been popped. */
  lemma EmptyWhenDrained<T>(s: Ring<T>)
    requires RingInv(s) && s.consumer.Waiting?
    ensures RingStep(s, FindItem) == Some(s) <==> |s.pushed| == |s.popped|
  {
    WrappedDifference(|s.pushed|, |s.popped|);
    assert s.(consumer := Reading).consumer != s.consumer;
  }

  /** The producer never writes the slot the consumer reads. */
  lemma LanesTouchDifferentSlots<T>(s: Ring<T>)
    requires RingInv(s) && s.producer.Admitted? && !s.consumer.Waiting?
    ensures s.head % |s.slots| != s.tail % |s.slots|
  {
    SlotOf(|s.pushed|, |s.slots|);
    SlotOf(|s.popped|, |s.slots|);
    SlotsDiffer(|s.popped|, |s.pushed|, |s.slots|);
  }

  lemma WriteKeepsHeld<T>(slots: seq<T>, pushed: seq<T>, from: nat, value: T)
    requires |slots| > 0 && Held(slots, pushed, from) && from <= |pushed| < from + |slots|
    ensures Held(slots[|pushed| % |slots| := value], pushed, from)
  {
    forall i: nat | from <= i < |pushed|
      ensures slots[|pushed| % |slots| := value][i % |slots|] == pushed[i]
    {
      SlotsDiffer(i, |pushed|, |slots|);
    }
  }

  lemma PushKeepsHeld<T>(slots: seq<T>, pushed: seq<T>, from: nat, value: T)
    requires |slots| > 0 && Held(slots, pushed, from) && slots[|pushed| % |slots|] == value
    ensures Held(slots, pushed + [value], from)
  {
  }

  lemma RingStepKeepsInv<T>(s: Ring<T>, a: RingAction<T>)
    requires RingInv(s) && RingStep(s, a).Some?
    ensures RingInv(RingStep(s, a).value)
  {
    var h, t := |s.pushed|, |s.popped|;
    WrappedDifference(h, t);
    SlotOf(h, |s.slots|);
    SlotOf(t, |s.slots|);
    WrappedBump(h);
    WrappedBump(t);
    hide Held, Ringlike, Bump;
    match a {
      case WriteSlot => WriteKeepsHeld(s.slots, s.pushed, t, s.producer.value);
        if s.consumer.Holding? { assert s.consumer.value == s.pushed[t]; }
      case PublishHead => PushKeepsHeld(s.slots, s.pushed, t, s.producer.value);
      case ReadSlot => HeldAt(s.slots, s.pushed, t, t);
      case PublishTail => HeldFrom(s.slots, s.pushed, t);
      case _ =>
    }
  }

  lemma HeldAt<T>(slots: seq<T>, pushed: seq<T>, from: nat, i: nat)
    requires |slots| > 0 && Held(slots, pushed, from) && from <= i < |pushed|
    ensures slots[i % |slots|] == pushed[i]
  {
  }

  lemma HeldFrom<T>(slots: seq<T>, pushed: seq<T>, from: nat)
    requires |slots| > 0 && Held(slots, pushed, from)
    ensures Held(slots, pushed, from + 1)
  {
  }

  function RunRing<T>(s: Ring<T>, actions: seq<RingAction<T>>): (s': Ring<T>)
    requires RingInv(s)
    ensures RingInv(s')
    decreases |actions|
  {
    if actions == [] then s
    else
      match RingStep(s, actions[0])
      case None => RunRing(s, actions[1..])
      case Some(next) =>
        RingStepKeepsInv(s, actions[0]);
        RunRing(next, actions[1..])
  }

  /** An empty ring whose counters already stand anywhere, as after any number of
      turns around 2^64. */
  ghost predicate EmptyRing<T>(s: Ring<T>, history: seq<T>) {
    && Ringlike(|s.slots|) && s.head == s.tail == |history| % WORD
    && s.producer == Ready && s.consumer == Waiting && s.pushed == s.popped == history
  }

  /** First in, first out, under every interleaving and however often the counters
      wrap: what was popped is a prefix of what was pushed, and no more than a
      capacity behind. */
  lemma FirstInFirstOut<T>(s: Ring<T>, history: seq<T>, actions: seq<RingAction<T>>)
    requires EmptyRing(s, history)
    ensures RingInv(s)
    ensures var end := RunRing(s, actions);
            end.popped <= end.pushed && |end.pushed| <= |end.popped| + |end.slots|
  {
    hide RunRing;
  }

  // ----- The queue object, one lane at a time -----

  class FixedSpscQueue<T> {
    const slots: array<T>
    var head: nat
    var tail: nat
    ghost var pushed: seq<T>
    ghost var popped: seq<T>

    ghost predicate Valid()
      reads this, slots
    {
      slots.Length > 0 && RingInv(Ring(slots[..], head, tail, Ready, Waiting, pushed, popped))
    }

    constructor (capacity: nat, zero: T)
      requires Ringlike(capacity)
      ensures Valid() && fresh(slots) && slots.Length == capacity && pushed == popped == []
    {
      slots := new T[capacity](i => zero);
      head, tail, pushed, popped := 0, 0, [], [];
    }

    /** Refused, with nothing changed, exactly when full. */
    method Push(value: T) returns (ok: bool)
      requires Valid()
      modifies this`head, this`pushed, slots
      ensures Valid()
      ensures ok <==> old(|pushed| - |popped|) < slots.Length
      ensures pushed == if ok then old(pushed) + [value] else old(pushed)
    {
      ghost var s := Ring(slots[..], head, tail, Ready, Waiting, pushed, popped);
      RefusedWhenFull(s, value);
      if (head - tail) % WORD == slots.Length { return false; }
      RingStepKeepsInv(s, Admit(value));
      ghost var s1 := s.(producer := Admitted(value));
      RingStepKeepsInv(s1, WriteSlot);
      slots[head % slots.Length] := value;
      ghost var s2 := s1.(slots := slots[..], producer := Written(value));
      RingStepKeepsInv(s2, PublishHead);
      head := Bump(head);
      pushed := pushed + [value];
      ok := true;
    }

    /** The oldest value not yet popped, if there is one. */
    method Pop() returns (value: Option<T>)
      requires Valid()
      modifies this`tail, this`popped
      ensures Valid()
      ensures value.None? <==> old(popped) == pushed
      ensures value.Some? ==> |old(popped)| < |pushed| && value.value == pushed[|old(popped)|] && popped == old(popped) + [value.value]
      ensures value.None? ==> popped == old(popped)
    {
      ghost var s := Ring(slots[..], head, tail, Ready, Waiting, pushed, popped);
      EmptyWhenDrained(s);
      if tail == head { return None; }
      RingStepKeepsInv(s, FindItem);
      ghost var s1 := s.(consumer := Reading);
      RingStepKeepsInv(s1, ReadSlot);
      var item := slots[tail % slots.Length];
      ghost var s2 := s1.(consumer := Holding(item));
      RingStepKeepsInv(s2, PublishTail);
      tail := Bump(tail);
      popped := popped + [item];
      value := Some(item);
    }
  }

  // ----- Capture: stop at the first loss -----

  const CAPTURE_CAPACITY: nat := 8192

  /** Between seeing the flag down and finishing a push the producer is `Offering`. */
  datatype Capture<T> = Capture(ring: Ring<T>, stopped: bool, lost: nat, offering: Option<T>, offered: seq<T>)

  datatype CaptureAction<T> = Offer(record: T) | TryAdmit | Lane(a: RingAction<T>) | Stop

  /** A push looks at the flag first; finding the ring full it counts one loss and
      raises the flag. Anyone may raise the flag at any time. */
  function CaptureStep<T>(s: Capture<T>, a: CaptureAction<T>): Option<Capture<T>>
    requires |s.ring.slots| > 0
  {
    match a
    case Offer(record) =>
      if s.offering.Some? || !s.ring.producer.Ready? then None
      else if s.stopped then Some(s.(offered := s.offered + [record]))
      else Some(s.(offering := Some(record), offered := s.offered + [record]))
    case TryAdmit =>
      if s.offering.None? then None
      else
        (match RingStep(s.ring, Admit(s.offering.value))
         case None => None
         case Some(next) =>
           if next.producer.Ready? then Some(s.(lost := s.lost + 1, stopped := true, offering := None))
           else Some(s.(ring := next, offering := None)))
    case Lane(x) =>
      if x.Admit? then None
      else (match RingStep(s.ring, x) case None => None case Some(next) => Some(s.(ring := next)))
    case Stop => Some(s.(stopped := true))
  }

  /** What the producer has still to finish. */
  function InHand<T>(s: Capture<T>): seq<T> {
    match s.offering
    case Some(record) => [record]
    case None => if s.ring.producer.Ready? then [] else [s.ring.producer.value]
  }

  ghost predicate CaptureInv<T>(s: Capture<T>) {
    && RingInv(s.ring)
    && (s.offering.Some? ==> s.ring.producer.Ready?)
    && s.ring.pushed + InHand(s) <= s.offered
    && (!s.stopped ==> s.ring.pushed + InHand(s) == s.offered)
    && (InHand(s) != [] ==> s.ring.pushed + InHand(s) == s.offered)
    && s.lost <= 1 && (s.lost == 1 ==> s.stopped && InHand(s) == [])
  }

  lemma CaptureStepKeepsInv<T>(s: Capture<T>, a: CaptureAction<T>)
    requires CaptureInv(s) && CaptureStep(s, a).Some?
    ensures CaptureInv(CaptureStep(s, a).value)
  {
    hide RingInv;
    match a {
      case Offer(record) =>
      case TryAdmit =>
        RingSlots(s.ring);
        RingStepKeepsInv(s.ring, Admit(s.offering.value));
      case Lane(x) =>
        RingSlots(s.ring);
        RingStepKeepsInv(s.ring, x);
      case Stop =>
    }
  }

  lemma RingSlots<T>(s: Ring<T>)
    requires RingInv(s)
    ensures |s.slots| > 0
  {
  }

  function RunCapture<T>(s: Capture<T>, actions: seq<CaptureAction<T>>): (s': Capture<T>)
    requires CaptureInv(s)
    ensures CaptureInv(s')
    decreases |actions|
  {
    if actions == [] then s
    else
      match CaptureStep(s, actions[0])
      case None => RunCapture(s, actions[1..])
      case Some(next) =>
        CaptureStepKeepsInv(s, actions[0]);
        RunCapture(next, actions[1..])
  }

  lemma CaptureRingIsRinglike()
    ensures Ringlike(CAPTURE_CAPACITY)
  {
  }

  ghost predicate Started<T>(s: Capture<T>) {
    && |s.ring.slots| == CAPTURE_CAPACITY && s.ring.head == s.ring.tail == 0 && s.ring.pushed == s.ring.popped == []
    && s.ring.producer == Ready && s.ring.consumer == Waiting
    && !s.stopped && s.lost == 0 && s.offering == None && s.offered == []
  }

  lemma StartedIsSafe<T>(s: Capture<T>)
    requires Started(s)
    ensures CaptureInv(s)
  {
    CaptureRingIsRinglike();
    FirstInFirstOut(s.ring, [], []);
  }

  /** What is popped is a prefix of what was offered, with no gap, even across a
      loss or a stop; a loss happens at most once, and as long as the flag is down
      nothing is missing. */
  lemma CapturedWithoutGaps<T>(s: Capture<T>, actions: seq<CaptureAction<T>>)
    requires Started(s)
    ensures CaptureInv(s)
    ensures var end := RunCapture(s, actions);
            && end.ring.popped <= end.offered && end.lost <= 1
            && (!end.stopped ==> end.ring.pushed + InHand(end) == end.offered)
  {
    StartedIsSafe(s);
    hide RunCapture;
  }

  /** From a loss on, or from any stop with nothing in hand, no further record is
      accepted; what had been accepted can still be popped. */
  lemma {:induction false} LossIsFinal<T>(s: Capture<T>, actions: seq<CaptureAction<T>>)
    requires CaptureInv(s) && (s.lost == 1 || (s.stopped && InHand(s) == []))
    ensures var end := RunCapture(s, actions);
            && end.ring.pushed == s.ring.pushed && end.lost == s.lost
            && s.ring.popped <= end.ring.popped <= s.ring.pushed
    decreases |actions|
  {
    hide RingInv;
    if actions != [] {
      RingSlots(s.ring);
      PoppedWithin(s.ring);
      var step := CaptureStep(s, actions[0]);
      if step.Some? {
        CaptureStepKeepsInv(s, actions[0]);
        LossIsFinal(step.value, actions[1..]);
      } else {
        LossIsFinal(s, actions[1..]);
      }
    } else {
      PoppedWithin(s.ring);
    }
  }

  lemma PoppedWithin<T>(s: Ring<T>)
    requires RingInv(s)
    ensures s.popped <= s.pushed
  {
  }

  // ----- The shared budget -----

  datatype Reserver = Away | Deciding(charge: nat, seen: nat)

  datatype Budget = Budget(used: nat, maximum: nat, reservers: seq<Reserver>, granted: nat)

  datatype BudgetAction = Ask(i: nat, charge: nat) | Swap(i: nat, spurious: bool) | Release(charge: nat)

  function Least(a: nat, b: nat): nat {
    if b < a then b else a
  }

  /** The retry loop: a swap succeeds only on the value seen, and any failure,
      spurious or not, looks again. */
  function BudgetStep(s: Budget, a: BudgetAction): Option<Budget> {
    match a
    case Ask(i, charge) =>
      if i >= |s.reservers| || !s.reservers[i].Away? then None
      else Some(s.(reservers := s.reservers[i := Deciding(charge, s.used)]))
    case Swap(i, spurious) =>
      if i >= |s.reservers| || !s.reservers[i].Deciding? then None
      else
        var r := s.reservers[i];
        if r.charge > s.maximum - Least(s.maximum, r.seen) then Some(s.(reservers := s.reservers[i := Away]))
        else if r.seen == s.used && !spurious then
          Some(s.(used := r.seen + r.charge, granted := s.granted + r.charge, reservers := s.reservers[i := Away]))
        else Some(s.(reservers := s.reservers[i := Deciding(r.charge, s.used)]))
    case Release(charge) =>
      if charge > s.granted then None
      else Some(s.(used := (s.used - charge) % WORD, granted := s.granted - charge))
  }

  predicate WithinBudget(s: Budget) {
    && s.used == s.granted <= s.maximum < WORD
    && forall i :: 0 <= i < |s.reservers| && s.reservers[i].Deciding? ==> s.reservers[i].seen <= s.maximum
  }

  lemma BudgetStepStaysWithin(s: Budget, a: BudgetAction)
    requires WithinBudget(s) && BudgetStep(s, a).Some?
    ensures WithinBudget(BudgetStep(s, a).value)
  {
    if a.Release? { DivModUnique(s.used - a.charge, WORD, 0, s.used - a.charge); }
  }

  function RunBudget(s: Budget, actions: seq<BudgetAction>): (s': Budget)
    decreases |actions|
  {
    if actions == [] then s
    else match BudgetStep(s, actions[0]) case None => RunBudget(s, actions[1..]) case Some(next) => RunBudget(next, actions[1..])
  }

  /** However many lanes race for it, the counter is what has been granted and not
      released, and it never passes the maximum. */
  lemma {:induction false} BudgetIsNeverExceeded(s: Budget, actions: seq<BudgetAction>)
    requires WithinBudget(s)
    ensures WithinBudget(RunBudget(s, actions))
    decreases |actions|
  {
    if actions != [] {
      var step := BudgetStep(s, actions[0]);
      if step.Some? {
        BudgetStepStaysWithin(s, actions[0]);
        BudgetIsNeverExceeded(step.value, actions[1..]);
      } else {
        BudgetIsNeverExceeded(s, actions[1..]);
      }
    }
  }

  /** In every run a reservation ends without a grant exactly when it did not fit beside
      what it saw; one that fits is granted in full on an unchanged counter, and otherwise
      looks again. */
  lemma RefusedExactly(s: Budget, actions: seq<BudgetAction>, i: nat, spurious: bool)
    requires WithinBudget(s)
    requires i < |RunBudget(s, actions).reservers| && RunBudget(s, actions).reservers[i].Deciding?
    ensures BudgetStep(RunBudget(s, actions), Swap(i, spurious)).Some?
    ensures var end := RunBudget(s, actions);
            var r, next := end.reservers[i], BudgetStep(end, Swap(i, spurious)).value;
            && (r.seen + r.charge > end.maximum ==> next == end.(reservers := end.reservers[i := Away]))
            && (r.seen + r.charge <= end.maximum && r.seen == end.used && !spurious ==>
                  && next.used == end.used + r.charge && next.granted == end.granted + r.charge && next.reservers[i].Away?)
            && (r.seen + r.charge <= end.maximum && (r.seen != end.used || spurious) ==>
                  next == end.(reservers := end.reservers[i := Deciding(r.charge, end.used)]))
  {
    hide RunBudget;
    BudgetIsNeverExceeded(s, actions);
  }
}
