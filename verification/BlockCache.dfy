/** The threaded block cache: a direct slot per program counter, a count of live
    blocks per page, and whole-cache invalidation by generation. */
module BlockCache {

  const ADDRESSES := 0x1_0000
  const PAGE_SIZE := 0x100
  const PAGES := 0x100
  const GENERATIONS := 0x1_0000_0000_0000_0000

  type Address = x: nat | x < ADDRESSES
  type Byte = x: nat | x < 0x100

  datatype Instruction = Instruction(address: Address, bytes: seq<Byte>)

  /** What a translator hands over; the cache keeps a copy of its own. */
  datatype Translation = Translation(start: Address, end: Address, instructions: seq<Instruction>)

  // ----- The log the cache stands for -----

  /** Everything inserted since the last clear, oldest first. */
  datatype Entry = Entry(block: Translation, valid: bool)

  type Log = seq<Entry>

  /** The last instruction at address `a`, or -1. */
  function LastIn(xs: seq<Instruction>, a: Address): (k: int)
    ensures -1 <= k < |xs|
    ensures k >= 0 ==> xs[k].address == a
    ensures forall i :: k < i < |xs| ==> xs[i].address != a
  {
    if xs == [] then -1
    else if xs[|xs| - 1].address == a then |xs| - 1
    else LastIn(xs[..|xs| - 1], a)
  }

  /** The last logged block with an instruction at address `a`, or -1. */
  function LastAt(log: Log, a: Address): (j: int)
    ensures -1 <= j < |log|
    ensures j >= 0 ==> LastIn(log[j].block.instructions, a) >= 0
    ensures forall i :: j < i < |log| ==> LastIn(log[i].block.instructions, a) < 0
  {
    if log == [] then -1
    else if LastIn(log[|log| - 1].block.instructions, a) >= 0 then |log| - 1
    else LastAt(log[..|log| - 1], a)
  }

  predicate Touches(t: Translation, page: nat) {
    var first, last := t.start / PAGE_SIZE, t.end / PAGE_SIZE;
    if first <= last then first <= page <= last else page >= first || page <= last
  }

  function Live(log: Log, page: nat): nat {
    if log == [] then 0
    else Live(log[..|log| - 1], page) + (if log[|log| - 1].valid && Touches(log[|log| - 1].block, page) then 1 else 0)
  }

  predicate Overlaps(t: Translation, start: Address, end: Address) {
    t.start <= end && t.end >= start
  }

  /** The effect of an invalidation over `start..end` on one entry. */
  function Struck(e: Entry, start: Address, end: Address): Entry {
    if start / PAGE_SIZE <= end / PAGE_SIZE && Overlaps(e.block, start, end) then e.(valid := false) else e
  }

  function StruckAll(log: Log, start: Address, end: Address): (log': Log)
    ensures |log'| == |log| && forall i :: 0 <= i < |log| ==> log'[i] == Struck(log[i], start, end)
  {
    seq(|log|, i requires 0 <= i < |log| => Struck(log[i], start, end))
  }

  function Voided(log: Log): (log': Log)
    ensures |log'| == |log| && forall i :: 0 <= i < |log| ==> log'[i] == log[i].(valid := false)
  {
    seq(|log|, i requires 0 <= i < |log| => log[i].(valid := false))
  }

  lemma {:induction false} LiveVoided(log: Log, page: nat)
    requires forall i :: 0 <= i < |log| ==> !log[i].valid
    ensures Live(log, page) == 0
  {
    if log != [] {
      LiveVoided(log[..|log| - 1], page);
    }
  }

  lemma {:induction false} LiveStrike(log: Log, j: nat, page: nat)
    requires j < |log| && log[j].valid
    ensures Live(log[j := log[j].(valid := false)], page) == Live(log, page) - (if Touches(log[j].block, page) then 1 else 0)
    ensures Touches(log[j].block, page) ==> Live(log, page) > 0
    decreases |log|
  {
    var log' := log[j := log[j].(valid := false)];
    if j == |log| - 1 {
      assert log'[..|log| - 1] == log[..|log| - 1];
    } else {
      var front := log[..|log| - 1];
      assert log'[..|log| - 1] == front[j := front[j].(valid := false)];
      LiveStrike(front, j, page);
    }
  }

  lemma LiveAppend(log: Log, e: Entry, page: nat)
    ensures Live(log + [e], page) == Live(log, page) + (if e.valid && Touches(e.block, page) then 1 else 0)
  {
    assert (log + [e])[..|log|] == log;
  }

  lemma LastAtAppend(log: Log, e: Entry, a: Address)
    ensures LastAt(log + [e], a) == if LastIn(e.block.instructions, a) >= 0 then |log| else LastAt(log, a)
  {
    assert (log + [e])[..|log|] == log;
  }

  /** Striking entries does not change which block is last at an address. */
  lemma {:induction false} LastAtSame(log: Log, log': Log, a: Address)
    requires |log| == |log'| && forall i :: 0 <= i < |log| ==> log[i].block == log'[i].block
    ensures LastAt(log, a) == LastAt(log', a)
  {
    if log != [] {
      LastAtSame(log[..|log| - 1], log'[..|log| - 1], a);
    }
  }

  /** The page test is no approximation: a block the scan would strike touches
      some page of the range, whether or not the block wraps around. */
  lemma StruckTouchesPage(t: Translation, start: Address, end: Address)
    requires start / PAGE_SIZE <= end / PAGE_SIZE && Overlaps(t, start, end)
    ensures exists page: nat :: start / PAGE_SIZE <= page <= end / PAGE_SIZE && Touches(t, page)
  {
    var first, last := t.start / PAGE_SIZE, t.end / PAGE_SIZE;
    assert first <= end / PAGE_SIZE && start / PAGE_SIZE <= last;
    var page := if first <= last && first > start / PAGE_SIZE then first
                else if first <= last then start / PAGE_SIZE
                else end / PAGE_SIZE;
    assert Touches(t, page);
  }

  /** An address of the block lies on the page. */
  ghost predicate OnPage(t: Translation, page: nat) {
    exists a: Address :: (if t.start <= t.end then t.start <= a <= t.end else a >= t.start || a <= t.end) && PageOf(a) == page
  }

  function PageOf(a: Address): nat {
    a / 0x100
  }

  /** A block touches exactly the pages its addresses lie on, the wrapped part included,
      unless it goes all the way around to the page it began on. */
  lemma TouchesExactly(t: Translation, page: nat)
    requires page < 0x100 && (t.start <= t.end || PageOf(t.start) != PageOf(t.end))
    ensures Touches(t, page) <==> OnPage(t, page)
  {
    if Touches(t, page) {
      var lowest, highest := page * 0x100, page * 0x100 + 0xFF;
      var a: Address := if PageOf(t.start) == page then t.start else if PageOf(t.end) == page then t.end else lowest;
      assert PageOf(a) == page && lowest <= a <= highest;
    }
  }

  lemma {:induction false} LiveZero(log: Log, page: nat, i: nat)
    requires Live(log, page) == 0 && i < |log| && log[i].valid
    ensures !Touches(log[i].block, page)
  {
    if i < |log| - 1 {
      LiveZero(log[..|log| - 1], page, i);
    }
  }

  lemma QuietRangeStrikesNothing(log: Log, start: Address, end: Address)
    requires forall page: nat :: start / PAGE_SIZE <= page <= end / PAGE_SIZE ==> Live(log, page) == 0
    ensures StruckAll(log, start, end) == log
  {
    forall i | 0 <= i < |log|
      ensures Struck(log[i], start, end) == log[i]
    {
      if start / PAGE_SIZE <= end / PAGE_SIZE && Overlaps(log[i].block, start, end) && log[i].valid {
        StruckTouchesPage(log[i].block, start, end);
        var page: nat :| start / PAGE_SIZE <= page <= end / PAGE_SIZE && Touches(log[i].block, page);
        LiveZero(log, page, i);
        assert false;
      }
    }
  }

  // ----- The cache -----

  class Block {
    const t: Translation
    const mappingGeneration: nat
    var valid: bool

    constructor (t: Translation, mappingGeneration: nat)
      ensures this.t == t && this.mappingGeneration == mappingGeneration && valid
    {
      this.t := t;
      this.mappingGeneration := mappingGeneration;
      valid := true;
    }
  }

  datatype Slot = Slot(block: Block?, index: nat)

  class Cache {
    const slots: array<Slot>
    const activeBlocksByPage: array<nat>
    const maxBlocks: nat
    var blocks: seq<Block>
    var mappingGeneration: nat
    ghost var log: Log

    /** What the slot of address `a` must hold. */
    ghost function Expected(a: Address): Slot
      requires |log| == |blocks|
      reads this`log, this`blocks
    {
      var j := LastAt(log, a);
      if j >= 0 && log[j].valid then Slot(blocks[j], LastIn(log[j].block.instructions, a)) else Slot(null, 0)
    }

    ghost predicate Logged()
      reads this`log, this`blocks, this`mappingGeneration, blocks`valid
    {
      && |log| == |blocks|
      && (forall i :: 0 <= i < |blocks| ==> log[i] == Entry(blocks[i].t, blocks[i].valid))
      && (forall i, j :: 0 <= i < j < |blocks| ==> blocks[i] != blocks[j])
      && (forall i :: 0 <= i < |blocks| && blocks[i].valid ==> blocks[i].mappingGeneration == mappingGeneration)
    }

    ghost predicate Counted()
      reads this`log, activeBlocksByPage
    {
      && activeBlocksByPage.Length == PAGES
      && forall page :: 0 <= page < PAGES ==> activeBlocksByPage[page] == Live(log, page)
    }

    ghost predicate Slotted()
      reads this`log, this`blocks, slots
    {
      && slots.Length == ADDRESSES && |log| == |blocks|
      && forall a: Address :: slots[a] == Expected(a)
    }

    ghost predicate Valid()
      reads this, slots, activeBlocksByPage, blocks
    {
      && maxBlocks > 0 && mappingGeneration < GENERATIONS
      && Logged() && Counted() && Slotted()
    }

    constructor (maxBlocks: nat)
      ensures Valid() && log == [] && fresh(slots) && fresh(activeBlocksByPage)
      ensures this.maxBlocks == if maxBlocks > 1 then maxBlocks else 1
    {
      this.maxBlocks := if maxBlocks > 1 then maxBlocks else 1;
      slots := new Slot[ADDRESSES](_ => Slot(null, 0));
      activeBlocksByPage := new nat[PAGES](_ => 0);
      blocks, mappingGeneration, log := [], 0, [];
    }

    /** A hit names the last block inserted at this address, provided that block
        is still valid; the generation test never rejects what the slot offers. */
    method Lookup(address: Address) returns (block: Block?, index: nat)
      requires Valid()
      ensures block != null <==> LastAt(log, address) >= 0 && log[LastAt(log, address)].valid
      ensures block != null ==>
                && block == blocks[LastAt(log, address)] && block.t == log[LastAt(log, address)].block
                && index == LastIn(block.t.instructions, address)
    {
      var slot := slots[address];
      assert slot == Expected(address);
      if slot.block == null || !slot.block.valid || slot.block.mappingGeneration != mappingGeneration {
        return null, 0;
      }
      return slot.block, slot.index;
    }

    /** Adds one to, or takes one from, the count of every page the block touches. */
    method AdjustActivePages(t: Translation, up: bool)
      requires activeBlocksByPage.Length == PAGES
      modifies activeBlocksByPage
      ensures forall page :: 0 <= page < PAGES ==>
                activeBlocksByPage[page] == Adjusted(old(activeBlocksByPage[page]), Touches(t, page), up)
    {
      var first, last := t.start / PAGE_SIZE, t.end / PAGE_SIZE;
      if first <= last {
        AdjustPages(first, last + 1, up);
      } else {
        AdjustPages(first, PAGES, up);
        AdjustPages(0, last + 1, up);
      }
    }

    static function Adjusted(count: nat, touched: bool, up: bool): nat {
      if !touched then count else if up then count + 1 else if count != 0 then count - 1 else 0
    }

    method AdjustPages(from: nat, to: nat, up: bool)
      requires from <= to <= PAGES == activeBlocksByPage.Length
      modifies activeBlocksByPage
      ensures forall page :: 0 <= page < PAGES ==>
                activeBlocksByPage[page] == Adjusted(old(activeBlocksByPage[page]), from <= page < to, up)
    {
      for page := from to to
        invariant forall p :: 0 <= p < PAGES ==>
                    activeBlocksByPage[p] == Adjusted(old(activeBlocksByPage[p]), from <= p < page, up)
      {
        if up {
          activeBlocksByPage[page] := activeBlocksByPage[page] + 1;
        } else if activeBlocksByPage[page] != 0 {
          activeBlocksByPage[page] := activeBlocksByPage[page] - 1;
        }
      }
    }

    method ClearEntries()
      requires Valid()
      modifies this`blocks, this`log, slots, activeBlocksByPage
      ensures Valid() && log == [] && blocks == []
    {
      forall a | 0 <= a < slots.Length { slots[a] := Slot(null, 0); }
      forall page | 0 <= page < activeBlocksByPage.Length { activeBlocksByPage[page] := 0; }
      blocks, log := [], [];
    }

    method Insert(t: Translation)
      requires Valid()
      modifies this`blocks, this`log, slots, activeBlocksByPage
      ensures Valid()
      ensures log == if t.instructions == [] then old(log)
                     else (if |old(log)| >= maxBlocks then [] else old(log)) + [Entry(t, true)]
      ensures forall b :: b in blocks ==> b in old(blocks) || fresh(b)
    {
      if t.instructions == [] { return; }
      if |blocks| >= maxBlocks { ClearEntries(); }
      Store(t);
    }

    method Store(t: Translation)
      requires Valid()
      modifies this`blocks, this`log, slots, activeBlocksByPage
      ensures Valid() && log == old(log) + [Entry(t, true)]
      ensures forall b :: b in blocks ==> b in old(blocks) || fresh(b)
    {
      hide Live, LastAt, LastIn;
      var stored := new Block(t, mappingGeneration);
      FillSlots(stored);
      AdjustActivePages(t, true);
      ghost var log0 := log;
      blocks, log := blocks + [stored], log + [Entry(t, true)];
      assert Logged();
      assert Counted() by {
        forall page: nat | page < PAGES
          ensures activeBlocksByPage[page] == Live(log, page)
        {
          LiveAppend(log0, Entry(t, true), page);
        }
      }
      assert Slotted() by {
        forall a: Address
          ensures slots[a] == Expected(a)
        {
          LastAtAppend(log0, Entry(t, true), a);
        }
      }
    }

    /** Points the slot of every instruction at the new block, the last one winning. */
    method FillSlots(stored: Block)
      requires slots.Length == ADDRESSES
      modifies slots
      ensures forall a: Address :: slots[a] ==
                if LastIn(stored.t.instructions, a) >= 0 then Slot(stored, LastIn(stored.t.instructions, a)) else old(slots[a])
    {
      var xs := stored.t.instructions;
      for index := 0 to |xs|
        invariant forall a: Address :: slots[a] ==
                    if LastIn(xs[..index], a) >= 0 then Slot(stored, LastIn(xs[..index], a)) else old(slots[a])
      {
        assert xs[..index + 1][..index] == xs[..index];
        slots[xs[index].address] := Slot(stored, index);
      }
      assert xs[..|xs|] == xs;
    }

    /** Strikes one live block: its pages, its flag, and the slots still pointing at it. */
    method InvalidateBlock(block: Block, ghost j: nat)
      requires Valid() && j < |blocks| && blocks[j] == block && block.valid
      modifies this`log, slots, activeBlocksByPage, block`valid
      ensures Valid() && log == old(log)[j := old(log)[j].(valid := false)]
    {
      AdjustActivePages(block.t, false);
      block.valid := false;
      ClearSlots(block);
      ghost var log0 := log;
      log := log[j := log[j].(valid := false)];
      assert Logged();
      forall page: nat | page < PAGES
        ensures activeBlocksByPage[page] == Live(log, page)
      {
        LiveStrike(log0, j, page);
      }
      assert Slotted() by {
        forall a: Address
          ensures slots[a] == Expected(a)
        {
          LastAtSame(log0, log, a);
        }
      }
    }

    method ClearSlots(block: Block)
      requires slots.Length == ADDRESSES
      modifies slots
      ensures forall a: Address :: slots[a] ==
                if LastIn(block.t.instructions, a) >= 0 && old(slots[a]).block == block then Slot(null, 0) else old(slots[a])
    {
      var xs := block.t.instructions;
      for index := 0 to |xs|
        invariant forall a: Address :: slots[a] ==
                    if LastIn(xs[..index], a) >= 0 && old(slots[a]).block == block then Slot(null, 0) else old(slots[a])
      {
        assert xs[..index + 1][..index] == xs[..index];
        if slots[xs[index].address].block == block {
          slots[xs[index].address] := Slot(null, 0);
        }
      }
      assert xs[..|xs|] == xs;
    }

    /** Reads the counters of the range's pages up to the first that is not zero. */
    method RangeHasActivePage(start: Address, end: Address) returns (active: bool)
      requires Valid()
      ensures active <==> exists page: nat :: start / PAGE_SIZE <= page <= end / PAGE_SIZE && Live(log, page) > 0
    {
      var page, last := start / PAGE_SIZE, end / PAGE_SIZE;
      while page <= last
        invariant start / PAGE_SIZE <= page
        invariant forall p: nat :: start / PAGE_SIZE <= p < page && p <= last ==> Live(log, p) == 0
      {
        if activeBlocksByPage[page] != 0 {
          assert Live(log, page) > 0;
          return true;
        }
        page := page + 1;
      }
      return false;
    }

    /** Strikes exactly the live blocks the range overlaps; skipping the scan on
        quiet pages never changes the outcome. */
    method InvalidateRange(start: Address, end: Address)
      requires Valid()
      modifies this`log, slots, activeBlocksByPage, blocks
      ensures Valid() && log == StruckAll(old(log), start, end)
    {
      var active := RangeHasActivePage(start, end);
      if !active {
        QuietRangeStrikesNothing(log, start, end);
        return;
      }
      for i := 0 to |blocks|
        invariant Valid() && |log| == |old(log)|
        invariant forall j :: 0 <= j < i ==> log[j] == Struck(old(log)[j], start, end)
        invariant forall j :: i <= j < |log| ==> log[j] == old(log)[j]
      {
        var block := blocks[i];
        if block.valid {
          if block.t.start <= end && block.t.end >= start {
            InvalidateBlock(block, i);
          }
        }
      }
    }

    /** Strikes the block the slot of this address points at. */
    method Invalidate(address: Address)
      requires Valid()
      modifies this`log, slots, activeBlocksByPage, blocks
      ensures Valid()
      ensures var j := LastAt(old(log), address);
              log == if j >= 0 then old(log)[j := old(log)[j].(valid := false)] else old(log)
    {
      var slot := slots[address];
      ghost var j := LastAt(log, address);
      assert slot == Expected(address);
      if slot.block != null && slot.block.valid {
        InvalidateBlock(slot.block, j);
      } else if j >= 0 {
        assert log[j := log[j].(valid := false)] == log;
      }
    }

    /** A new generation strikes everything, without forgetting it. */
    method InvalidateAll()
      requires Valid()
      modifies this`mappingGeneration, this`log, slots, activeBlocksByPage, blocks
      ensures Valid() && log == Voided(old(log))
      ensures mappingGeneration == (old(mappingGeneration) + 1) % 0x1_0000_0000_0000_0000
    {
      hide Live, LastIn;
      mappingGeneration := (mappingGeneration + 1) % GENERATIONS;
      if blocks == [] {
        assert log == Voided(log);
        return;
      }
      for i := 0 to |blocks|
        invariant log == old(log) && mappingGeneration == (old(mappingGeneration) + 1) % 0x1_0000_0000_0000_0000
        invariant forall j :: 0 <= j < |blocks| ==> blocks[j].valid == (old(blocks[j].valid) && j >= i)
      {
        blocks[i].valid := false;
      }
      forall a | 0 <= a < slots.Length { slots[a] := Slot(null, 0); }
      forall page | 0 <= page < activeBlocksByPage.Length { activeBlocksByPage[page] := 0; }
      log := Voided(log);
      assert Logged();
      assert Counted() by {
        forall page: nat
          ensures Live(log, page) == 0
        {
          LiveVoided(log, page);
        }
      }
      assert Slotted();
    }

    method Clear()
      requires Valid()
      modifies this, slots, activeBlocksByPage
      ensures Valid() && log == [] && mappingGeneration == (old(mappingGeneration) + 1) % 0x1_0000_0000_0000_0000
    {
      ClearEntries();
      mappingGeneration := (mappingGeneration + 1) % GENERATIONS;
    }
  }
}
