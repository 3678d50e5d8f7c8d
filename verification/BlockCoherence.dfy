/** A guest machine around the block cache: what guest writes, hardware, remaps and
    translations do to the memory a program sees and to the blocks the cache offers. */
module BlockCoherence {
  import opened BlockCache

  // ----- The memory a program sees -----

  /** `shows[a]` is the cell that address `a` shows. */
  datatype Memory = Memory(shows: seq<nat>, cells: seq<Byte>)

  predicate InMirror(a: nat) {
    0xE000 <= a <= 0xFDFF
  }

  /** Sprite memory and device registers, which hardware changes behind the cache. */
  predicate IsDevice(a: nat) {
    0xFE00 <= a < 0xFEA0 || 0xFF00 <= a < 0xFF80
  }

  function Normal(a: Address): Address {
    if InMirror(a) then a - 0x2000 else a
  }

  /** The mirror is the 7680 bytes from 0xE000 on, and stands for those 8192 bytes before. */
  lemma MirrorStands(a: Address)
    ensures Normal(a) == if 0xE000 <= a < 0xE000 + 7680 then a - 8192 else a
  {
  }

  /** The mirror shows work memory, and no other address shows a device cell. */
  ghost predicate Sane(m: Memory) {
    && |m.shows| == ADDRESSES
    && (forall a: Address :: m.shows[a] < |m.cells| && m.shows[a] == m.shows[Normal(a)])
    && (forall a: Address, b: Address :: m.shows[a] == m.shows[b] && IsDevice(a) ==> IsDevice(b))
  }

  /** Nothing but the mirror shows one cell twice; a cartridge whose save memory is
      smaller than its window does. */
  ghost predicate MirrorOnly(m: Memory)
    requires Sane(m)
  {
    forall a: Address, b: Address :: m.shows[a] == m.shows[b] ==> Normal(a) == Normal(b)
  }

  function At(m: Memory, a: Address): Byte
    requires Sane(m)
  {
    m.cells[m.shows[a]]
  }

  function Poke(m: Memory, a: Address, v: Byte): (m': Memory)
    requires Sane(m)
    ensures Sane(m') && m'.shows == m.shows
    ensures forall b: Address :: At(m', b) == if m.shows[b] == m.shows[a] then v else At(m, b)
  {
    m.(cells := m.cells[m.shows[a] := v])
  }

  function Ahead(a: Address, k: nat): Address {
    (a + k) % ADDRESSES
  }

  /** Where byte `k` of an instruction comes from. */
  function Place(x: Instruction, k: nat): Address {
    Ahead(x.address, k)
  }

  ghost predicate Reads(x: Instruction, m: Memory)
    requires Sane(m)
  {
    forall k: nat :: k < |x.bytes| ==> x.bytes[k] == At(m, Place(x, k))
  }

  ghost predicate Matches(t: Translation, m: Memory)
    requires Sane(m)
  {
    forall i: nat :: i < |t.instructions| ==> Reads(t.instructions[i], m)
  }

  // ----- Which changes the cache notices -----

  /** A guest write to `a` is seen by the block: it voids everything, or hits the range
      under the address it is normalised to. */
  predicate Seen(t: Translation, a: Address) {
    var p := Normal(a);
    p < 0x8000 || p == 0xFF50 || Overlaps(t, p, p)
  }

  ghost predicate ReadsFrom(t: Translation, b: Address) {
    exists i: nat, k: nat :: i < |t.instructions| && k < |t.instructions[i].bytes| && Place(t.instructions[i], k) == b
  }

  /** No byte is a device's, and every address that shows one of the block's bytes is
      one where a write is seen. */
  ghost predicate Guarded(t: Translation, m: Memory)
    requires Sane(m)
  {
    && (forall b: Address :: ReadsFrom(t, b) ==> !IsDevice(b))
    && (forall a: Address, b: Address :: ReadsFrom(t, b) && m.shows[a] == m.shows[b] ==> Seen(t, a))
  }

  ghost predicate Coherent(log: Log, m: Memory)
    requires Sane(m)
  {
    forall j :: 0 <= j < |log| && log[j].valid && Guarded(log[j].block, m) ==> Matches(log[j].block, m)
  }

  // ----- What a guest machine does, said of the log and the memory -----

  datatype World = World(log: Log, mem: Memory)

  datatype Command =
    | Write(address: Address, value: Byte)
    | Hardware(address: Address, value: Byte)
    | Remap(mem: Memory)
    | Translate(start: Address, first: seq<Byte>, lengths: seq<nat>)
    | Invalidate(at: Address)
    | Dispatch(pc: Address)
    | Clear

  /** A cache hit, with the memory it was made against. */
  datatype Fetch = Fetch(address: Address, block: Translation, index: nat, mem: Memory)

  /** Instructions are one to three bytes long; a fetch cut short by an interrupt has none. */
  ghost predicate Sensible(c: Command) {
    match c
    case Hardware(address, _) => IsDevice(address)
    case Remap(mem) => Sane(mem)
    case Translate(_, first, lengths) => |first| <= 3 && forall i :: 0 <= i < |lengths| ==> 0 < lengths[i] <= 3
    case _ => true
  }

  function CopyOf(m: Memory, address: Address, length: nat): (x: Instruction)
    requires Sane(m)
    ensures Reads(x, m) && x.address == address && |x.bytes| == length
  {
    Instruction(address, seq<Byte>(length, k requires 0 <= k => At(m, Ahead(address, k))))
  }

  predicate LastOfPage(start: Address, next: nat) {
    next >= ADDRESSES || next / PAGE_SIZE != start / PAGE_SIZE
  }

  /** The instructions copied behind the first one: up to the end of the page, and
      none that wraps around. */
  function Copied(m: Memory, start: Address, next: nat, lengths: seq<nat>): seq<Instruction>
    requires Sane(m)
    decreases |lengths|
  {
    if LastOfPage(start, next) || lengths == [] || next + lengths[0] > ADDRESSES then []
    else [CopyOf(m, next, lengths[0])] + Copied(m, start, next + lengths[0], lengths[1..])
  }

  function EndOf(start: Address, xs: seq<Instruction>): Address {
    if xs == [] then start
    else (xs[|xs| - 1].address + |xs[|xs| - 1].bytes| - 1) % ADDRESSES
  }

  /** The first instruction keeps the bytes that were fetched before it ran; the others
      are read from memory afterwards. */
  function Instructions(m: Memory, start: Address, first: seq<Byte>, lengths: seq<nat>): seq<Instruction>
    requires Sane(m)
  {
    if first == [] then [] else [Instruction(start, first)] + Copied(m, start, start + |first|, lengths)
  }

  function Translated(m: Memory, start: Address, first: seq<Byte>, lengths: seq<nat>): Translation
    requires Sane(m)
  {
    var xs := Instructions(m, start, first, lengths);
    Translation(start, EndOf(start, xs), xs)
  }

  function AfterWrite(log: Log, address: Address, size: nat): Log {
    var p := Normal(address);
    if size == 0 then log
    else if p < 0x8000 || p == 0xFF50 then Voided(log)
    else if p + size > ADDRESSES then StruckAll(StruckAll(log, p, ADDRESSES - 1), 0, (p + size - 1) % ADDRESSES)
    else StruckAll(log, p, p + size - 1)
  }

  function AfterInsert(log: Log, maxBlocks: nat, t: Translation): Log {
    if t.instructions == [] then log
    else (if |log| >= maxBlocks then [] else log) + [Entry(t, true)]
  }

  function AfterInvalidate(log: Log, a: Address): Log {
    var j := LastAt(log, a);
    if j >= 0 then log[j := log[j].(valid := false)] else log
  }

  function Perform(w: World, maxBlocks: nat, c: Command): (w': World)
    requires Sane(w.mem) && Sensible(c)
    ensures Sane(w'.mem)
  {
    match c
    case Write(address, value) => World(AfterWrite(w.log, address, 1), Poke(w.mem, address, value))
    case Hardware(address, value) => World(w.log, Poke(w.mem, address, value))
    case Remap(mem) => World(Voided(w.log), mem)
    case Translate(start, first, lengths) =>
      World(AfterInsert(w.log, maxBlocks, Translated(w.mem, start, first, lengths)), w.mem)
    case Invalidate(at) => World(AfterInvalidate(w.log, at), w.mem)
    case Dispatch(_) => w
    case Clear => World([], w.mem)
  }

  /** A dispatch hits exactly when the last block logged at its address is still valid. */
  function Hits(w: World, c: Command): seq<Fetch> {
    if c.Dispatch? && LastAt(w.log, c.pc) >= 0 && w.log[LastAt(w.log, c.pc)].valid then
      var block := w.log[LastAt(w.log, c.pc)].block;
      [Fetch(c.pc, block, LastIn(block.instructions, c.pc), w.mem)]
    else []
  }

  datatype Trace = Trace(world: World, hits: seq<Fetch>)

  function RunWorld(w: World, maxBlocks: nat, commands: seq<Command>): (r: Trace)
    requires Sane(w.mem) && forall i :: 0 <= i < |commands| ==> Sensible(commands[i])
    ensures Sane(r.world.mem)
  {
    if commands == [] then Trace(w, [])
    else
      var before := RunWorld(w, maxBlocks, commands[..|commands| - 1]);
      var c := commands[|commands| - 1];
      Trace(Perform(before.world, maxBlocks, c), before.hits + Hits(before.world, c))
  }

  // ----- Writes -----

  /** A change of a cell that shows none of the block's bytes keeps the block right. */
  lemma OtherCellsStay(t: Translation, m: Memory, a: Address, v: Byte)
    requires Sane(m) && Matches(t, m)
    requires forall b: Address :: ReadsFrom(t, b) ==> m.shows[a] != m.shows[b]
    ensures Matches(t, Poke(m, a, v))
  {
    var m' := Poke(m, a, v);
    forall i: nat | i < |t.instructions|
      ensures Reads(t.instructions[i], m')
    {
      var x := t.instructions[i];
      assert Reads(x, m);
      forall k: nat | k < |x.bytes|
        ensures x.bytes[k] == At(m', Place(x, k))
      {
        assert ReadsFrom(t, Place(x, k));
      }
    }
  }

  /** A byte the block reads and that now shows another value is a mismatch. */
  lemma ChangedByteMismatches(t: Translation, m: Memory, a: Address, b: Address, v: Byte)
    requires Sane(m) && Matches(t, m) && ReadsFrom(t, b) && m.shows[a] == m.shows[b] && v != At(m, b)
    ensures !Matches(t, Poke(m, a, v))
  {
    var i: nat, k: nat :| i < |t.instructions| && k < |t.instructions[i].bytes| && Place(t.instructions[i], k) == b;
    var x := t.instructions[i];
    assert Reads(x, m) && x.bytes[k] == At(m, b);
    assert At(Poke(m, a, v), Place(x, k)) == v;
    assert !Reads(x, Poke(m, a, v));
  }

  /** One written byte strikes exactly the entries that see it. */
  lemma StruckOrUnseen(log: Log, a: Address)
    ensures var log' := AfterWrite(log, a, 1);
            |log'| == |log|
            && forall j :: 0 <= j < |log| ==> log'[j] == Entry(log[j].block, log[j].valid && !Seen(log[j].block, a))
  {
    var p, log' := Normal(a), AfterWrite(log, a, 1);
    forall j | 0 <= j < |log|
      ensures log'[j] == Entry(log[j].block, log[j].valid && !Seen(log[j].block, a))
    {
      if !(p < 0x8000 || p == 0xFF50) {
        assert log' == StruckAll(log, p, p);
        assert log'[j] == Struck(log[j], p, p);
      }
    }
  }

  /** Striking the written byte is enough: a guarded block left standing read nothing from it. */
  lemma WriteKeepsCoherent(log: Log, m: Memory, a: Address, v: Byte)
    requires Sane(m) && Coherent(log, m)
    ensures Coherent(AfterWrite(log, a, 1), Poke(m, a, v))
  {
    var log', m' := AfterWrite(log, a, 1), Poke(m, a, v);
    StruckOrUnseen(log, a);
    forall j | 0 <= j < |log'| && log'[j].valid && Guarded(log'[j].block, m')
      ensures Matches(log'[j].block, m')
    {
      var t := log[j].block;
      assert !Seen(t, a) && Guarded(t, m);
      OtherCellsStay(t, m, a, v);
    }
  }

  lemma HardwareKeepsCoherent(log: Log, m: Memory, a: Address, v: Byte)
    requires Sane(m) && Coherent(log, m) && IsDevice(a)
    ensures Coherent(log, Poke(m, a, v))
  {
    forall j | 0 <= j < |log| && log[j].valid && Guarded(log[j].block, Poke(m, a, v))
      ensures Matches(log[j].block, Poke(m, a, v))
    {
      assert Guarded(log[j].block, m);
      OtherCellsStay(log[j].block, m, a, v);
    }
  }

  /** Address `a` is one of the bytes a block spans, wrapping included. */
  predicate Spans(start: Address, end: Address, a: Address) {
    if start <= end then start <= a <= end else a >= start || a <= end
  }

  /** The overlap test sees a write to every byte of a block exactly when the
      block does not wrap around the address space. */
  lemma OverlapTestSeesLinearBlocks(start: Address, end: Address)
    ensures (forall a: Address :: Spans(start, end, a) ==> Overlaps(Translation(start, end, []), a, a)) <==> start <= end
  {
    if start > end {
      assert Spans(start, end, start) && !Overlaps(Translation(start, end, []), start, start);
    }
  }

  /** Byte `k` from `p` on lies in the block's range. */
  predicate Within(t: Translation, p: Address, k: nat) {
    Spans(t.start, t.end, Ahead(p, k))
  }

  /** Some of the `size` bytes from `p` on lies in a linear block's range. */
  lemma SomeWithin(t: Translation, p: Address, size: nat)
    requires 0 < size <= ADDRESSES && t.start <= t.end
    ensures (exists k: nat :: k < size && Within(t, p, k)) <==>
              if p + size > ADDRESSES then t.end >= p || t.start <= p + size - 1 - ADDRESSES
              else Overlaps(t, p, p + size - 1)
  {
    if t.end >= p && t.start < p + size {
      assert Within(t, p, if t.start <= p then 0 else t.start - p);
    }
    if t.start + ADDRESSES <= p + size - 1 && t.start < p {
      assert Within(t, p, t.start + ADDRESSES - p);
    }
  }

  /** An invalidation of several bytes is that of each of them, wrapping included: it
      strikes exactly the linear blocks whose range holds one of them. */
  lemma SizedWriteStrikesItsBytes(log: Log, address: Address, size: nat, j: nat)
    requires 0 < size <= ADDRESSES && j < |log| && log[j].block.start <= log[j].block.end
    requires 0x8000 <= Normal(address) && Normal(address) != 0xFF50
    ensures |AfterWrite(log, address, size)| == |log|
    ensures AfterWrite(log, address, size)[j] ==
              Entry(log[j].block, log[j].valid && !exists k: nat :: k < size && Within(log[j].block, Normal(address), k))
  {
    hide Within;
    var p, t := Normal(address), log[j].block;
    SomeWithin(t, p, size);
    if p + size > ADDRESSES {
      var half := StruckAll(log, p, ADDRESSES - 1);
      assert half[j] == Struck(log[j], p, ADDRESSES - 1);
    }
  }

  // ----- Exactly which blocks stay coherent -----

  /** A block that is all there is in the cache is struck by the change, or still right. */
  ghost predicate Survives(t: Translation, m: Memory, c: Command)
    requires Sane(m) && Sensible(c)
  {
    var w := Perform(World([Entry(t, true)], m), 1, c);
    forall j :: 0 <= j < |w.log| && w.log[j].valid ==> Matches(w.log[j].block, w.mem)
  }

  ghost predicate ChangeOf(c: Command) {
    (c.Write? || c.Hardware?) && Sensible(c)
  }

  lemma GuardedSurvives(t: Translation, m: Memory, c: Command)
    requires Sane(m) && Matches(t, m) && Guarded(t, m) && ChangeOf(c)
    ensures Survives(t, m, c)
  {
    var log := [Entry(t, true)];
    StruckOrUnseen(log, c.address);
    if c.Hardware? || !Seen(t, c.address) {
      OtherCellsStay(t, m, c.address, c.value);
    }
  }

  function Other(v: Byte): Byte {
    if v == 0 then 1 else 0
  }

  lemma UnseenWriteStays(t: Translation, m: Memory, a: Address, b: Address)
    requires Sane(m) && Matches(t, m) && ReadsFrom(t, b) && m.shows[a] == m.shows[b] && !Seen(t, a)
    ensures !Survives(t, m, Write(a, Other(At(m, b))))
  {
    var log, v := [Entry(t, true)], Other(At(m, b));
    StruckOrUnseen(log, a);
    var w := Perform(World(log, m), 1, Write(a, v));
    assert w.log[0] == Entry(t, true);
    ChangedByteMismatches(t, m, a, b, v);
  }

  lemma HardwareChangeStays(t: Translation, m: Memory, b: Address)
    requires Sane(m) && Matches(t, m) && ReadsFrom(t, b) && IsDevice(b)
    ensures !Survives(t, m, Hardware(b, Other(At(m, b))))
  {
    var v := Other(At(m, b));
    var w := Perform(World([Entry(t, true)], m), 1, Hardware(b, v));
    assert w.log[0] == Entry(t, true);
    ChangedByteMismatches(t, m, b, b, v);
  }

  /** A block that is right stays right, or is struck, under every guest write and every
      hardware change, if and only if it is guarded. */
  lemma GuardedExactly(t: Translation, m: Memory)
    requires Sane(m) && Matches(t, m)
    ensures Guarded(t, m) <==> forall c :: ChangeOf(c) ==> Survives(t, m, c)
  {
    if Guarded(t, m) {
      forall c | ChangeOf(c)
        ensures Survives(t, m, c)
      {
        GuardedSurvives(t, m, c);
      }
    } else if b: Address :| ReadsFrom(t, b) && IsDevice(b) {
      HardwareChangeStays(t, m, b);
      assert ChangeOf(Hardware(b, Other(At(m, b))));
    } else {
      var a: Address, b: Address :| ReadsFrom(t, b) && m.shows[a] == m.shows[b] && !Seen(t, a);
      UnseenWriteStays(t, m, a, b);
      assert ChangeOf(Write(a, Other(At(m, b))));
    }
  }

  // ----- A block's header tells -----

  /** The block does not wrap around, and its instructions lie inside it. */
  predicate Linear(t: Translation) {
    && t.start <= t.end
    && forall i :: 0 <= i < |t.instructions| ==>
         t.start <= t.instructions[i].address && t.instructions[i].address + |t.instructions[i].bytes| - 1 <= t.end
  }

  /** A block that does not wrap is linear and ends in its page or just behind it. */
  predicate Compact(t: Translation) {
    t.start <= t.end ==> Linear(t) && t.end <= t.start / PAGE_SIZE * PAGE_SIZE + PAGE_SIZE + 1
  }

  predicate Shifting(a: nat) {
    InMirror(a) || IsDevice(a)
  }

  /** The block does not wrap, and begins and ends outside the mirror and the devices. */
  predicate Steady(t: Translation) {
    t.start <= t.end && !Shifting(t.start) && !Shifting(t.end)
  }

  /** Consecutive instructions of one page that end before the top of memory. */
  ghost predicate Ascending(xs: seq<Instruction>, from: nat, page: nat) {
    && (forall i :: 0 <= i < |xs| ==> 0 < |xs[i].bytes| <= 3 && xs[i].address >= from)
    && (forall i :: 0 <= i < |xs| ==> xs[i].address / PAGE_SIZE == page && xs[i].address + |xs[i].bytes| <= ADDRESSES)
    && (forall i, j :: 0 <= i < j < |xs| ==> xs[i].address + |xs[i].bytes| <= xs[j].address)
  }

  lemma AscendingNone(from: nat, page: nat)
    ensures Ascending([], from, page)
  {
  }

  lemma AscendingCons(x: Instruction, rest: seq<Instruction>)
    requires 0 < |x.bytes| <= 3 && x.address + |x.bytes| <= ADDRESSES
    requires Ascending(rest, x.address + |x.bytes|, x.address / PAGE_SIZE)
    ensures Ascending([x] + rest, x.address, x.address / PAGE_SIZE)
  {
  }

  lemma {:induction false} CopiedAscends(m: Memory, start: Address, next: nat, lengths: seq<nat>)
    requires Sane(m) && Sensible(Translate(start, [], lengths)) && start <= next
    ensures Ascending(Copied(m, start, next, lengths), next, start / PAGE_SIZE)
    decreases |lengths|
  {
    hide Reads, CopyOf, Ascending, Sane;
    AscendingNone(next, start / PAGE_SIZE);
    if !LastOfPage(start, next) && lengths != [] && next + lengths[0] <= ADDRESSES {
      CopiedAscends(m, start, next + lengths[0], lengths[1..]);
      AscendingCons(CopyOf(m, next, lengths[0]), Copied(m, start, next + lengths[0], lengths[1..]));
    }
  }

  lemma {:induction false} CopiedReads(m: Memory, start: Address, next: nat, lengths: seq<nat>)
    requires Sane(m)
    ensures forall i :: 0 <= i < |Copied(m, start, next, lengths)| ==> Reads(Copied(m, start, next, lengths)[i], m)
    decreases |lengths|
  {
    hide Reads, Sane;
    if !LastOfPage(start, next) && lengths != [] && next + lengths[0] <= ADDRESSES {
      CopiedReads(m, start, next + lengths[0], lengths[1..]);
    }
  }

  lemma CopiedStep(m: Memory, start: Address, next: nat, lengths: seq<nat>, xs: seq<Instruction>)
    requires Sane(m) && lengths != []
    ensures xs + Copied(m, start, next, lengths) ==
              if LastOfPage(start, next) || next + lengths[0] > ADDRESSES then xs
              else xs + [CopyOf(m, next, lengths[0])] + Copied(m, start, next + lengths[0], lengths[1..])
  {
  }

  lemma NothingCopied(m: Memory, start: Address, next: nat)
    requires Sane(m)
    ensures Copied(m, start, next, []) == []
  {
  }

  /** A translated block equals memory if and only if the bytes that were fetched for its
      first instruction do. */
  lemma TranslationMatches(m: Memory, start: Address, first: seq<Byte>, lengths: seq<nat>)
    requires Sane(m) && Sensible(Translate(start, first, lengths))
    ensures Matches(Translated(m, start, first, lengths), m) <==> Reads(Instruction(start, first), m)
  {
    hide Copied, Sane;
    CopiedReads(m, start, start + |first|, lengths);
    var xs := Instructions(m, start, first, lengths);
    if first == [] {
      assert Reads(Instruction(start, first), m);
    } else {
      assert xs[0] == Instruction(start, first);
      assert forall i :: 1 <= i < |xs| ==> xs[i] == Copied(m, start, start + |first|, lengths)[i - 1];
    }
  }

  lemma TranslatedAscends(m: Memory, start: Address, first: seq<Byte>, lengths: seq<nat>)
    requires Sane(m) && Sensible(Translate(start, first, lengths)) && first != [] && start + |first| <= ADDRESSES
    ensures Ascending(Instructions(m, start, first, lengths), start, start / PAGE_SIZE)
  {
    CopiedAscends(m, start, start + |first|, lengths);
    AscendingCons(Instruction(start, first), Copied(m, start, start + |first|, lengths));
  }

  /** Only a first instruction that itself wraps makes a block that wraps, and that
      block holds nothing else. */
  lemma WrapsExactly(m: Memory, start: Address, first: seq<Byte>, lengths: seq<nat>)
    requires Sane(m) && Sensible(Translate(start, first, lengths)) && first != []
    ensures var t := Translated(m, start, first, lengths);
            && (start + |first| <= ADDRESSES <==> t.start <= t.end)
            && t.start == start && Compact(t)
            && (t.start > t.end ==> t.instructions == [Instruction(start, first)])
  {
    var xs := Instructions(m, start, first, lengths);
    if start + |first| <= ADDRESSES {
      hide Copied;
      TranslatedAscends(m, start, first, lengths);
      assert xs[|xs| - 1].address >= start;
    } else {
      assert xs == [Instruction(start, first)];
    }
  }

  lemma LinearReads(t: Translation, b: Address)
    requires Linear(t) && ReadsFrom(t, b)
    ensures t.start <= b <= t.end
  {
    var i: nat, k: nat :| i < |t.instructions| && k < |t.instructions[i].bytes| && Place(t.instructions[i], k) == b;
    assert t.instructions[i].address + k <= t.end;
  }

  lemma ReadsEnds(m: Memory, start: Address, first: seq<Byte>, lengths: seq<nat>)
    requires Sane(m) && Sensible(Translate(start, first, lengths)) && first != []
    ensures ReadsFrom(Translated(m, start, first, lengths), start)
    ensures ReadsFrom(Translated(m, start, first, lengths), Translated(m, start, first, lengths).end)
  {
    var t := Translated(m, start, first, lengths);
    var last := t.instructions[|t.instructions| - 1];
    assert Place(t.instructions[0], 0) == start;
    assert 0 < |last.bytes| by {
      CopiedAscends(m, start, start + |first|, lengths);
      assert last == Instruction(start, first) || last in Copied(m, start, start + |first|, lengths);
    }
    assert Place(last, |last.bytes| - 1) == t.end;
  }

  /** A short block that begins and ends clear of the shifting addresses holds none. */
  lemma NothingShiftsInside(start: nat, end: nat, b: nat)
    requires start <= b <= end < ADDRESSES && end <= start / PAGE_SIZE * PAGE_SIZE + PAGE_SIZE + 1
    requires !Shifting(start) && !Shifting(end)
    ensures !Shifting(b)
  {
    assert start / PAGE_SIZE * PAGE_SIZE <= start < start / PAGE_SIZE * PAGE_SIZE + PAGE_SIZE;
  }

  lemma SteadyIsGuarded(t: Translation, m: Memory)
    requires Sane(m) && MirrorOnly(m) && Compact(t) && Steady(t)
    ensures Guarded(t, m)
  {
    forall a: Address, b: Address | ReadsFrom(t, b)
      ensures !IsDevice(b) && (m.shows[a] == m.shows[b] ==> Seen(t, a))
    {
      LinearReads(t, b);
      NothingShiftsInside(t.start, t.end, b);
      assert Normal(b) == b;
    }
  }

  /** A wrapping block never sees a write to its first byte, nor any block one to a byte
      of its own in the mirror. */
  lemma UnsteadyIsUnguarded(m: Memory, start: Address, first: seq<Byte>, lengths: seq<nat>)
    requires Sane(m) && Sensible(Translate(start, first, lengths)) && first != []
    requires !Steady(Translated(m, start, first, lengths))
    ensures !Guarded(Translated(m, start, first, lengths), m)
  {
    var t := Translated(m, start, first, lengths);
    ReadsEnds(m, start, first, lengths);
    WrapsExactly(m, start, first, lengths);
    if t.start > t.end {
      assert !Seen(t, start) || IsDevice(start);
    } else if InMirror(start) {
      assert !Seen(t, start);
    } else if InMirror(t.end) {
      assert !Seen(t, t.end);
    }
  }

  /** Where only the mirror shows a cell twice, the header of a translated block tells
      whether it stays coherent: it must neither wrap nor begin or end in the mirror or
      on a device. */
  lemma SteadyExactly(m: Memory, start: Address, first: seq<Byte>, lengths: seq<nat>)
    requires Sane(m) && MirrorOnly(m) && Sensible(Translate(start, first, lengths)) && first != []
    requires Reads(Instruction(start, first), m)
    ensures var t := Translated(m, start, first, lengths);
            && (Steady(t) <==> forall c :: ChangeOf(c) ==> Survives(t, m, c))
            && (Steady(t) <==> Guarded(t, m))
            && (Steady(t) <==>
                  && start + |first| <= 0x10000
                  && !(0xE000 <= start < 0xFEA0) && !(0xFF00 <= start < 0xFF80)
                  && !(0xE000 <= t.end < 0xFEA0) && !(0xFF00 <= t.end < 0xFF80))
  {
    hide Translated, Survives;
    var t := Translated(m, start, first, lengths);
    TranslationMatches(m, start, first, lengths);
    WrapsExactly(m, start, first, lengths);
    GuardedExactly(t, m);
    if Steady(t) {
      SteadyIsGuarded(t, m);
    } else {
      UnsteadyIsUnguarded(m, start, first, lengths);
    }
  }

  // ----- Every hit is coherent, once every block is right when it is stored -----

  /** The bytes a translation was handed are what memory shows at that moment. */
  ghost predicate Faithful(m: Memory, c: Command)
    requires Sane(m)
  {
    c.Translate? ==> Reads(Instruction(c.start, c.first), m)
  }

  ghost predicate FaithfulRun(w: World, maxBlocks: nat, commands: seq<Command>)
    requires Sane(w.mem) && forall i :: 0 <= i < |commands| ==> Sensible(commands[i])
  {
    commands != [] ==>
      && FaithfulRun(w, maxBlocks, commands[..|commands| - 1])
      && Faithful(RunWorld(w, maxBlocks, commands[..|commands| - 1]).world.mem, commands[|commands| - 1])
  }

  ghost predicate AllCompact(log: Log) {
    forall j :: 0 <= j < |log| ==> Compact(log[j].block)
  }

  lemma PerformKeepsCompact(w: World, maxBlocks: nat, c: Command)
    requires Sane(w.mem) && Sensible(c) && AllCompact(w.log)
    ensures AllCompact(Perform(w, maxBlocks, c).log)
  {
    hide Compact, Sane, Copied;
    match c {
      case Write(address, value) => StruckOrUnseen(w.log, address);
      case Translate(start, first, lengths) =>
        if first != [] { WrapsExactly(w.mem, start, first, lengths); }
      case _ =>
    }
  }

  lemma PerformKeepsCoherent(w: World, maxBlocks: nat, c: Command)
    requires Sane(w.mem) && Sensible(c) && Coherent(w.log, w.mem) && Faithful(w.mem, c)
    ensures Coherent(Perform(w, maxBlocks, c).log, Perform(w, maxBlocks, c).mem)
  {
    match c {
      case Write(address, value) => WriteKeepsCoherent(w.log, w.mem, address, value);
      case Hardware(address, value) => HardwareKeepsCoherent(w.log, w.mem, address, value);
      case Translate(start, first, lengths) => TranslationMatches(w.mem, start, first, lengths);
      case _ =>
    }
  }

  ghost predicate FetchOk(f: Fetch) {
    && Sane(f.mem)
    && f.index < |f.block.instructions| && f.block.instructions[f.index].address == f.address
    && (Guarded(f.block, f.mem) ==> Matches(f.block, f.mem))
    && (MirrorOnly(f.mem) && Steady(f.block) ==> Matches(f.block, f.mem))
  }

  lemma HitsAreOk(w: World, c: Command)
    requires Sane(w.mem) && Coherent(w.log, w.mem) && AllCompact(w.log)
    ensures forall f :: f in Hits(w, c) ==> FetchOk(f)
  {
    hide Sane, Guarded, Matches, MirrorOnly, Steady, Compact;
    forall f | f in Hits(w, c)
      ensures FetchOk(f)
    {
      if MirrorOnly(f.mem) && Steady(f.block) {
        SteadyIsGuarded(f.block, f.mem);
      }
    }
  }

  /** Over any run of writes, hardware changes, remaps, invalidations, clears and
      translations of bytes that are still right, every hit on a guarded block offers
      exactly the memory of that moment, at an instruction of the address asked for; so
      does every hit on a steady block where only the mirror shows a cell twice. */
  lemma {:induction false} EveryHitIsCoherent(w: World, maxBlocks: nat, commands: seq<Command>)
    requires Sane(w.mem) && Coherent(w.log, w.mem) && AllCompact(w.log)
    requires forall i :: 0 <= i < |commands| ==> Sensible(commands[i])
    requires FaithfulRun(w, maxBlocks, commands)
    ensures var r := RunWorld(w, maxBlocks, commands);
            && Coherent(r.world.log, r.world.mem) && AllCompact(r.world.log)
            && forall f :: f in r.hits ==> FetchOk(f)
  {
    hide Sane, Coherent, AllCompact, FetchOk, Faithful, Perform, Hits;
    if commands != [] {
      EveryHitIsCoherent(w, maxBlocks, commands[..|commands| - 1]);
      var before, c := RunWorld(w, maxBlocks, commands[..|commands| - 1]), commands[|commands| - 1];
      HitsAreOk(before.world, c);
      PerformKeepsCoherent(before.world, maxBlocks, c);
      PerformKeepsCompact(before.world, maxBlocks, c);
    }
  }

  // ----- What goes wrong otherwise -----

  /** What a dispatch at `pc` is offered is not what memory shows. */
  ghost predicate OffersStale(w: World, pc: Address)
    requires Sane(w.mem)
  {
    exists f :: Hits(w, Dispatch(pc)) == [f] && f.mem == w.mem && !Matches(f.block, w.mem)
  }

  lemma LastIsOffered(w: World, a: Address, t: Translation)
    requires Sane(w.mem) && w.log != [] && w.log[|w.log| - 1] == Entry(t, true)
    requires t.instructions != [] && t.instructions[0].address == a
    ensures |Hits(w, Dispatch(a))| == 1 && (OffersStale(w, a) <==> !Matches(t, w.mem))
  {
    hide Matches, Sane;
    assert LastAt(w.log, a) == |w.log| - 1;
    var f := Hits(w, Dispatch(a))[0];
    assert Hits(w, Dispatch(a)) == [f] && f.block == t && f.mem == w.mem;
  }

  /** A dispatch right behind a translation hits, and what it is offered is stale if and
      only if the bytes handed over were. */
  lemma OfferedAsHandedOver(w: World, maxBlocks: nat, start: Address, first: seq<Byte>, lengths: seq<nat>)
    requires Sane(w.mem) && Sensible(Translate(start, first, lengths)) && first != []
    ensures var w' := Perform(w, maxBlocks, Translate(start, first, lengths));
            && |Hits(w', Dispatch(start))| == 1
            && (OffersStale(w', start) <==> !Faithful(w.mem, Translate(start, first, lengths)))
  {
    hide Copied, Matches, Reads, Sane, OffersStale, Hits;
    LastIsOffered(Perform(w, maxBlocks, Translate(start, first, lengths)), start, Translated(w.mem, start, first, lengths));
    TranslationMatches(w.mem, start, first, lengths);
  }

  /** The bytes a plain fetch takes, and those it takes when the halt bug keeps the
      program counter from moving behind the opcode. */
  function Fetched(m: Memory, pc: Address, length: nat, haltBug: bool): (bytes: seq<Byte>)
    requires Sane(m)
    ensures |bytes| == length
  {
    seq<Byte>(length, k requires 0 <= k => At(m, Ahead(pc, if haltBug && k > 0 then k - 1 else k)))
  }

  /** Bytes fetched from memory as it still is are right for a block if and only if the
      fetch was plain, or the bytes from the program counter on are all the same. */
  lemma FetchedIsFaithful(m: Memory, pc: Address, length: nat, haltBug: bool, lengths: seq<nat>)
    requires Sane(m) && 0 < length <= 3
    ensures Faithful(m, Translate(pc, Fetched(m, pc, length, haltBug), lengths)) <==>
              !haltBug || forall k: nat :: 0 < k < length ==> At(m, Ahead(pc, k)) == At(m, Ahead(pc, k - 1))
  {
    hide At, Sane, Ahead;
    var x := Instruction(pc, Fetched(m, pc, length, haltBug));
    assert forall k: nat :: Place(x, k) == Ahead(pc, k);
  }

  /** Under the halt bug, an instruction whose next byte differs from its opcode is
      stored with its opcode as that byte, and offered so again. */
  lemma HaltBugFetchGoesStale(w: World, maxBlocks: nat, pc: Address, length: nat, lengths: seq<nat>)
    requires Sane(w.mem) && 1 < length <= 3 && Sensible(Translate(pc, [], lengths))
    requires At(w.mem, Ahead(pc, 1)) != At(w.mem, pc)
    ensures OffersStale(Perform(w, maxBlocks, Translate(pc, Fetched(w.mem, pc, length, true), lengths)), pc)
  {
    hide At, Sane, Perform, OffersStale, Faithful;
    OfferedAsHandedOver(w, maxBlocks, pc, Fetched(w.mem, pc, length, true), lengths);
    FetchedIsFaithful(w.mem, pc, length, true, lengths);
    assert Ahead(pc, 1 - 1) == pc;
  }

  /** `LD (HL),A` that overwrites itself in work memory strikes the old blocks first and
      is then stored with the opcode that is no longer there, in a block that neither
      wraps nor touches mirror or device. */
  lemma SelfOverwriteGoesStale(w: World, maxBlocks: nat, pc: Address, a: Byte)
    requires Sane(w.mem) && 0xC000 <= pc < 0xE000 && At(w.mem, pc) == 0x77 && a != 0x77
    ensures var w1 := Perform(w, maxBlocks, Write(pc, a));
            && Steady(Translated(w1.mem, pc, [0x77], []))
            && OffersStale(Perform(w1, maxBlocks, Translate(pc, [0x77], [])), pc)
  {
    hide Sane, OffersStale, AfterWrite, LastIn, LastAt;
    var w1, x := Perform(w, maxBlocks, Write(pc, a)), Instruction(pc, [0x77]);
    OfferedAsHandedOver(w1, maxBlocks, pc, [0x77], []);
    assert !Faithful(w1.mem, Translate(pc, [0x77], [])) by { assert x.bytes[0] != At(w1.mem, Place(x, 0)); }
    hide Faithful, Perform, At, Reads;
    NothingCopied(w1.mem, pc, pc + 1);
    hide Copied;
    assert Translated(w1.mem, pc, [0x77], []) == Translation(pc, pc, [x]);
  }

  /** A change at the first byte that the block does not see is offered stale, whatever
      the translation. */
  lemma UnseenChangeGoesStale(w: World, maxBlocks: nat, start: Address, first: seq<Byte>, lengths: seq<nat>, c: Command)
    requires Sane(w.mem) && Sensible(Translate(start, first, lengths)) && first != []
    requires ChangeOf(c) && w.mem.shows[c.address] == w.mem.shows[start] && c.value != first[0]
    requires c.Write? ==> !Seen(Translated(w.mem, start, first, lengths), c.address)
    ensures OffersStale(Perform(Perform(w, maxBlocks, Translate(start, first, lengths)), maxBlocks, c), start)
  {
    hide Copied, Sane, OffersStale, Hits;
    var w1 := Perform(w, maxBlocks, Translate(start, first, lengths));
    var w2 := Perform(w1, maxBlocks, c);
    var t := Translated(w.mem, start, first, lengths);
    StruckOrUnseen(w1.log, c.address);
    LastIsOffered(w2, start, t);
    assert Place(t.instructions[0], 0) == start && At(w2.mem, start) == c.value;
    assert !Reads(t.instructions[0], w2.mem);
  }

  /** Every translation whose first instruction wraps is offered stale after a write
      that changes its very first byte. */
  lemma WrappedBlockGoesStale(w: World, maxBlocks: nat, start: Address, first: seq<Byte>, lengths: seq<nat>, v: Byte)
    requires Sane(w.mem) && Sensible(Translate(start, first, lengths)) && first != []
    requires start + |first| > ADDRESSES && v != first[0]
    ensures OffersStale(Perform(Perform(w, maxBlocks, Translate(start, first, lengths)), maxBlocks, Write(start, v)), start)
  {
    WrapsExactly(w.mem, start, first, lengths);
    UnseenChangeGoesStale(w, maxBlocks, start, first, lengths, Write(start, v));
  }

  /** So is every translation made in the mirror, by a write through the mirror or to the
      work memory behind it. */
  lemma MirroredBlockGoesStale(w: World, maxBlocks: nat, start: Address, first: seq<Byte>, lengths: seq<nat>, v: Byte)
    requires Sane(w.mem) && Sensible(Translate(start, first, lengths)) && first != []
    requires InMirror(start) && v != first[0]
    ensures var w1 := Perform(w, maxBlocks, Translate(start, first, lengths));
            OffersStale(Perform(w1, maxBlocks, Write(start, v)), start)
            && OffersStale(Perform(w1, maxBlocks, Write(start - 0x2000, v)), start)
  {
    UnseenChangeGoesStale(w, maxBlocks, start, first, lengths, Write(start, v));
    UnseenChangeGoesStale(w, maxBlocks, start, first, lengths, Write(start - 0x2000, v));
  }

  /** And every translation made on a device, when hardware changes its first byte. */
  lemma DeviceBlockGoesStale(w: World, maxBlocks: nat, start: Address, first: seq<Byte>, lengths: seq<nat>, v: Byte)
    requires Sane(w.mem) && Sensible(Translate(start, first, lengths)) && first != []
    requires IsDevice(start) && v != first[0]
    ensures OffersStale(Perform(Perform(w, maxBlocks, Translate(start, first, lengths)), maxBlocks, Hardware(start, v)), start)
  {
    UnseenChangeGoesStale(w, maxBlocks, start, first, lengths, Hardware(start, v));
  }

  // ----- The machine with the real cache -----

  class Machine {
    const cache: Cache
    var mem: Memory

    ghost predicate Valid()
      reads this, cache, cache.slots, cache.activeBlocksByPage, cache.blocks
    {
      cache.Valid() && Sane(mem)
    }

    ghost function View(): World
      reads this, cache
    {
      World(cache.log, mem)
    }

    constructor (maxBlocks: nat, mem: Memory)
      requires Sane(mem)
      ensures Valid() && View() == World([], mem)
      ensures fresh(cache) && fresh(cache.slots) && fresh(cache.activeBlocksByPage) && fresh(cache.blocks)
    {
      var c := new Cache(maxBlocks);
      cache := c;
      this.mem := mem;
    }

    /** Takes the mirror back to work memory, then strikes everything for a mapper or
        boot-ROM register, otherwise the written range, in two parts when it wraps. */
    method InvalidateForWrite(address: Address, size: nat)
      requires Valid() && size <= ADDRESSES
      modifies cache, cache.slots, cache.activeBlocksByPage, cache.blocks
      ensures Valid() && cache.blocks == old(cache.blocks)
      ensures cache.log == AfterWrite(old(cache.log), address, size)
    {
      var at := Normal(address);
      if size == 0 { return; }
      if at < 0x8000 || at == 0xFF50 {
        cache.InvalidateAll();
        return;
      }
      var offsetEnd := at + size - 1;
      if offsetEnd >= ADDRESSES {
        cache.InvalidateRange(at, ADDRESSES - 1);
        cache.InvalidateRange(0, offsetEnd % ADDRESSES);
        return;
      }
      cache.InvalidateRange(at, offsetEnd);
    }

    /** A guest write of one byte reaches memory first, the cache second. */
    method Store(address: Address, value: Byte)
      requires Valid()
      modifies this`mem, cache, cache.slots, cache.activeBlocksByPage, cache.blocks
      ensures Valid() && cache.blocks == old(cache.blocks)
      ensures View() == Perform(old(View()), cache.maxBlocks, Write(address, value))
    {
      mem := Poke(mem, address, value);
      InvalidateForWrite(Normal(address), 1);
    }

    /** The first instruction from the bytes fetched before it ran, the others from
        memory, stopping at the end of the page. */
    method Copy(start: Address, first: seq<Byte>, lengths: seq<nat>) returns (t: Translation)
      requires Sane(mem) && Sensible(Translate(start, first, lengths))
      ensures t == Translated(mem, start, first, lengths)
    {
      hide Copied, CopyOf, Reads, Sane;
      if first == [] { return Translation(start, start, []); }
      var xs, end := [Instruction(start, first)], (start + |first| - 1) % ADDRESSES;
      var next: nat := start + |first|;
      for i := 0 to |lengths|
        invariant xs + Copied(mem, start, next, lengths[i..]) == Instructions(mem, start, first, lengths)
        invariant xs != [] && end == EndOf(start, xs)
      {
        assert lengths[i..] == [lengths[i]] + lengths[i + 1..];
        CopiedStep(mem, start, next, lengths[i..], xs);
        if next > 0xFFFF || next / PAGE_SIZE != start / PAGE_SIZE { break; }
        if next + lengths[i] - 1 > 0xFFFF { break; }
        xs := xs + [CopyOf(mem, next, lengths[i])];
        end := (next + lengths[i] - 1) % ADDRESSES;
        next := next + lengths[i];
      }
      NothingCopied(mem, start, next);
      t := Translation(start, end, xs);
    }

    /** One command; a dispatch that hits is reported. */
    method Step(c: Command) returns (hits: seq<Fetch>)
      requires Valid() && Sensible(c)
      modifies this`mem, cache, cache.slots, cache.activeBlocksByPage, cache.blocks
      ensures Valid() && forall b :: b in cache.blocks ==> b in old(cache.blocks) || fresh(b)
      ensures View() == Perform(old(View()), cache.maxBlocks, c) && hits == Hits(old(View()), c)
    {
      hide AfterWrite, Poke, Copied, LastIn, LastAt;
      hits := [];
      match c {
        case Write(address, value) => Store(address, value);
        case Hardware(address, value) => mem := Poke(mem, address, value);
        case Remap(mem') =>
          mem := mem';
          cache.InvalidateAll();
        case Translate(start, first, lengths) =>
          var t := Copy(start, first, lengths);
          cache.Insert(t);
        case Invalidate(at) => cache.Invalidate(at);
        case Dispatch(pc) =>
          var block, index := cache.Lookup(pc);
          if block != null { hits := [Fetch(pc, block.t, index, mem)]; }
        case Clear => cache.Clear();
      }
    }

    /** The cache with its slots, page counts and generations refines the log
        over every run: same hits, same outcome. */
    method Run(commands: seq<Command>) returns (hits: seq<Fetch>)
      requires Valid() && forall i :: 0 <= i < |commands| ==> Sensible(commands[i])
      modifies this`mem, cache, cache.slots, cache.activeBlocksByPage, cache.blocks
      ensures Valid()
      ensures Trace(View(), hits) == RunWorld(old(View()), cache.maxBlocks, commands)
    {
      hide Perform, Hits;
      hits := [];
      for i := 0 to |commands|
        invariant Valid()
        invariant forall k :: 0 <= k < |cache.blocks| ==> cache.blocks[k] in old(cache.blocks) || fresh(cache.blocks[k])
        invariant Trace(View(), hits) == RunWorld(old(View()), cache.maxBlocks, commands[..i])
      {
        assert commands[..i + 1][..i] == commands[..i];
        ghost var before := cache.blocks;
        var more := Step(commands[i]);
        hits := hits + more;
        forall k | 0 <= k < |cache.blocks|
          ensures cache.blocks[k] in old(cache.blocks) || fresh(cache.blocks[k])
        {
          assert cache.blocks[k] in cache.blocks;
          if cache.blocks[k] in before {
            var j :| 0 <= j < |before| && before[j] == cache.blocks[k];
          }
        }
      }
      assert commands[..|commands|] == commands;
    }
  }
}
