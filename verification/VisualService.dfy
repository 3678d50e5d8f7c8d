/** The override service: memoised choices, the image cache with its byte budget,
    and background reloads that may come back late. */
module VisualService {
  import opened VisualKeys
  import opened VisualOverrides
  import opened Wrappers

  const MAX_CACHE_BYTES: nat := 64 * 1024 * 1024

  /** `generation` is the one the image was decoded for; the code does not keep it. */
  datatype Cached = Cached(pixels: seq<nat>, bytes: nat, lastUse: nat, generation: nat)

  type Images = map<string, Cached>

  datatype Decode = NotReady | Failed | Decoded(pixels: seq<nat>)

  /** A manifest on disk: its write time and what it parses to. */
  datatype File = File(stamp: int, parsed: Option<Pack>)

  type Disk = string -> File

  datatype Pending = Pending(base: nat, packs: seq<Pack>)

  // ----- Bytes in the cache -----


  ghost function Sum(images: Images): nat
    decreases |images|
  {
    if images == map[] then 0
    else
      var k :| k in images;
      images[k].bytes + Sum(images - {k})
  }

  lemma {:induction false} SumWithout(images: Images, k: string)
    requires k in images
    ensures Sum(images) == images[k].bytes + Sum(images - {k})
    decreases |images|
  {
    var first :| first in images && Sum(images) == images[first].bytes + Sum(images - {first});
    if first != k {
      var rest := images - {first};
      SumWithout(rest, k);
      SumWithout(images - {k}, first);
      assert rest - {k} == images - {k} - {first};
    }
  }

  lemma SumWith(images: Images, k: string, v: Cached)
    requires k !in images
    ensures Sum(images[k := v]) == Sum(images) + v.bytes
  {
    SumWithout(images[k := v], k);
    assert images[k := v] - {k} == images;
  }

  lemma SumTouched(images: Images, k: string, lastUse: nat)
    requires k in images
    ensures Sum(images[k := images[k].(lastUse := lastUse)]) == Sum(images)
  {
    var touched := images[k := images[k].(lastUse := lastUse)];
    SumWithout(images, k);
    SumWithout(touched, k);
    assert touched - {k} == images - {k};
  }

  /** No two images were last used at once, and none later than now. */
  ghost predicate Ordered(images: Images, serial: nat) {
    && (forall k :: k in images ==> images[k].lastUse <= serial)
    && (forall j, k :: j in images && k in images && j != k ==> images[j].lastUse != images[k].lastUse)
  }

  /** The byte counter is the sum of the entries and within the budget, and every
      image belongs to the current generation. */
  ghost predicate Stocked(images: Images, bytes: nat, serial: nat, generation: nat) {
    && bytes == Sum(images) <= MAX_CACHE_BYTES
    && Ordered(images, serial)
    && forall k :: k in images ==> images[k].generation == generation
  }

  method Oldest(images: Images) returns (victim: Option<string>)
    ensures victim.None? <==> images == map[]
    ensures victim.Some? ==> victim.value in images && forall k :: k in images ==> images[victim.value].lastUse <= images[k].lastUse
  {
    victim := None;
    var keys := images.Keys;
    while keys != {}
      invariant keys <= images.Keys
      invariant victim.None? ==> keys == images.Keys
      invariant victim.Some? ==> victim.value in images
      invariant victim.Some? ==> forall k :: k in images && k !in keys ==> images[victim.value].lastUse <= images[k].lastUse
      decreases |keys|
    {
      var k :| k in keys;
      if victim.None? || images[k].lastUse < images[victim.value].lastUse { victim := Some(k); }
      keys := keys - {k};
    }
  }

  /** `kept` is what least-recently-used eviction leaves of `images`: everything
      gone was older than everything kept. */
  ghost predicate KeepsNewest(images: Images, kept: Images) {
    && kept.Keys <= images.Keys
    && (forall k :: k in kept ==> kept[k] == images[k])
    && forall gone, k :: gone in images && gone !in kept && k in kept ==> images[gone].lastUse < images[k].lastUse
  }

  /** Nothing was evicted in vain: with the last image evicted it would not fit. */
  ghost predicate NoNeedlessEviction(images: Images, kept: Images, needed: nat) {
    images.Keys != kept.Keys ==>
      exists last :: last in images && last !in kept && Sum(kept) + images[last].bytes + needed > MAX_CACHE_BYTES
                     && forall gone :: gone in images && gone !in kept ==> images[gone].lastUse <= images[last].lastUse
  }

  lemma EvictOldest(images: Images, left: Images, victim: string, serial: nat)
    requires Ordered(images, serial) && KeepsNewest(images, left) && victim in left
    requires forall k :: k in left ==> left[victim].lastUse <= left[k].lastUse
    ensures KeepsNewest(images, left - {victim})
    ensures forall gone :: gone in images && gone !in left - {victim} ==> images[gone].lastUse <= images[victim].lastUse
  {
  }

  method EvictFor(images: Images, bytes: nat, needed: nat, ghost serial: nat) returns (ok: bool, left: Images, leftBytes: nat)
    requires bytes == Sum(images) && Ordered(images, serial)
    ensures ok <==> needed <= 67_108_864
    ensures KeepsNewest(images, left) && leftBytes == Sum(left)
    ensures ok ==> leftBytes + needed <= MAX_CACHE_BYTES && NoNeedlessEviction(images, left, needed)
    ensures !ok ==> left == images
  {
    ok, left, leftBytes := false, images, bytes;
    if needed > MAX_CACHE_BYTES { return; }
    ghost var last: Option<string> := None;
    while leftBytes > MAX_CACHE_BYTES - needed
      invariant leftBytes == Sum(left) && KeepsNewest(images, left)
      invariant last.None? <==> left == images
      invariant last.Some? ==> last.value in images && last.value !in left
      invariant last.Some? ==> Sum(left) + images[last.value].bytes + needed > MAX_CACHE_BYTES
      invariant last.Some? ==> forall gone :: gone in images && gone !in left ==> images[gone].lastUse <= images[last.value].lastUse
      decreases |left|
    {
      var victim := Oldest(left);
      if victim.None? { return; }
      EvictOldest(images, left, victim.value, serial);
      SumWithout(left, victim.value);
      leftBytes := leftBytes - left[victim.value].bytes;
      left := left - {victim.value};
      last := victim;
    }
    ok := true;
  }

  /** `next` is `images` with `entry` added and only old images evicted for it. */
  ghost predicate Inserted(images: Images, next: Images, key: string, entry: Cached) {
    && key in next && next[key] == entry
    && KeepsNewest(images, next - {key}) && NoNeedlessEviction(images, next - {key}, entry.bytes)
  }

  method Insert(images: Images, bytes: nat, serial: nat, generation: nat, key: string, pixels: seq<nat>)
      returns (ok: bool, next: Images, nextBytes: nat)
    requires Stocked(images, bytes, serial, generation) && key !in images
    ensures ok <==> 4 * |pixels| <= 67_108_864
    ensures ok ==> Stocked(next, nextBytes, serial + 1, generation)
    ensures ok ==> Inserted(images, next, key, Cached(pixels, 4 * |pixels|, serial + 1, generation))
    ensures !ok ==> next == images && nextBytes == bytes
  {
    hide Sum, NoNeedlessEviction;
    var needed := 4 * |pixels|;
    var left, leftBytes;
    ok, left, leftBytes := EvictFor(images, bytes, needed, serial);
    if !ok { return false, images, bytes; }
    LeftIsOrdered(images, left, serial, generation);
    var entry := Cached(pixels, needed, serial + 1, generation);
    SumWith(left, key, entry);
    assert left[key := entry] - {key} == left;
    next, nextBytes := left[key := entry], leftBytes + needed;
  }

  lemma TouchKeepsStock(images: Images, bytes: nat, serial: nat, generation: nat, key: string)
    requires Stocked(images, bytes, serial, generation) && key in images
    ensures Stocked(images[key := images[key].(lastUse := serial + 1)], bytes, serial + 1, generation)
  {
    hide Sum;
    SumTouched(images, key, serial + 1);
  }

  // ----- What was asked for last -----

  /** When `key` was last handed out, or -1. */
  function LastOf(served: seq<string>, key: string): (n: int)
    ensures -1 <= n < |served| && (n >= 0 ==> served[n] == key) && forall i :: n < i < |served| ==> served[i] != key
  {
    if served == [] then -1
    else if served[|served| - 1] == key then |served| - 1
    else LastOf(served[..|served| - 1], key)
  }

  /** Use serials are the places in the list of what was handed out. */
  ghost predicate Dated(images: Images, served: seq<string>) {
    forall k :: k in images ==> images[k].lastUse == LastOf(served, k) + 1 >= 1
  }

  lemma LastOfMore(served: seq<string>, key: string)
    ensures forall k :: LastOf(served + [key], k) == if k == key then |served| else LastOf(served, k)
  {
    assert (served + [key])[..|served|] == served;
  }

  /** Every image evicted was last handed out before every image that stays. */
  ghost predicate EvictsOldest(images: Images, next: Images, served: seq<string>) {
    forall gone, k :: gone in images && gone !in next && k in next ==> LastOf(served, gone) < LastOf(served, k)
  }

  lemma TouchDates(images: Images, served: seq<string>, key: string)
    requires Dated(images, served) && key in images
    ensures Dated(images[key := images[key].(lastUse := |served| + 1)], served + [key])
  {
    hide LastOf;
    LastOfMore(served, key);
  }

  lemma NoneEvicted(images: Images, next: Images, served: seq<string>)
    requires images.Keys == next.Keys
    ensures EvictsOldest(images, next, served)
  {
  }

  lemma InsertDates(images: Images, next: Images, served: seq<string>, key: string, entry: Cached)
    requires Dated(images, served) && Inserted(images, next, key, entry) && key !in images && entry.lastUse == |served| + 1
    ensures Dated(next, served + [key]) && EvictsOldest(images, next, served + [key])
  {
    hide NoNeedlessEviction, LastOf;
    LastOfMore(served, key);
    forall k | k in next && k != key
      ensures k in images && next[k] == images[k]
    {
      assert k in next - {key};
    }
    forall gone, k | gone in images && gone !in next && k in next && k != key
      ensures images[gone].lastUse < images[k].lastUse
    {
      assert k in next - {key} && gone !in next - {key};
    }
  }

  // ----- Reloading -----

  function Paths(packs: seq<Pack>): (paths: seq<string>)
    ensures |paths| == |packs|
  {
    seq(|packs|, i requires 0 <= i < |packs| => packs[i].path)
  }

  lemma PathsSnoc(packs: seq<Pack>, pack: Pack)
    ensures Paths(packs + [pack]) == Paths(packs) + [pack.path]
  {
  }

  /** One pack read again if its stamp moved. */
  function Reread(pack: Pack, disk: Disk): Option<Pack> {
    var file := disk(pack.path);
    if file.stamp == pack.stamp then Some(pack)
    else
      match file.parsed
      case None => None
      case Some(m) => Some(m.(path := pack.path, stamp := file.stamp))
  }

  /** A pack whose stamp has not moved stays; one that has moved is what its manifest now
      says, under its old path and the new stamp, or fails with it. */
  lemma RereadsWhatMoved(pack: Pack, disk: Disk)
    ensures var file, r := disk(pack.path), Reread(pack, disk);
            && (file.stamp == pack.stamp ==> r == Some(pack))
            && (file.stamp != pack.stamp && file.parsed.None? ==> r == None)
            && (file.stamp != pack.stamp && file.parsed.Some? ==>
                  && r.Some? && r.value.path == pack.path && r.value.stamp == file.stamp
                  && r.value.rules == file.parsed.value.rules && r.value.target == file.parsed.value.target
                  && r.value.targets == file.parsed.value.targets && r.value.priority == file.parsed.value.priority)
  {
  }

  function RereadAll(packs: seq<Pack>, disk: Disk): (r: Option<seq<Pack>>)
    ensures r.Some? ==> Paths(r.value) == Paths(packs)
    decreases |packs|
  {
    if packs == [] then Some([])
    else
      var n := |packs| - 1;
      match (RereadAll(packs[..n], disk), Reread(packs[n], disk))
      case (Some(front), Some(last)) =>
        assert Paths(front + [last]) == Paths(packs[..n]) + [packs[n].path] == Paths(packs);
        Some(front + [last])
      case _ => None
  }

  predicate Moved(packs: seq<Pack>, disk: Disk) {
    exists i :: 0 <= i < |packs| && disk(packs[i].path).stamp != packs[i].stamp
  }

  lemma {:induction false} FailedPack(packs: seq<Pack>, disk: Disk, i: nat)
    requires i < |packs| && Reread(packs[i], disk).None?
    ensures RereadAll(packs, disk).None?
    decreases |packs|
  {
    if i < |packs| - 1 { FailedPack(packs[..|packs| - 1], disk, i); }
  }

  /** The job a reload runs over its own copy of the packs. */
  method ReloadJob(packs: seq<Pack>, disk: Disk) returns (result: Option<seq<Pack>>, changed: bool)
    ensures result == RereadAll(packs, disk)
    ensures result.Some? ==> (changed <==> Moved(packs, disk))
  {
    var read: seq<Pack> := [];
    changed := false;
    var i := 0;
    while i < |packs|
      invariant 0 <= i <= |packs| && RereadAll(packs[..i], disk) == Some(read)
      invariant changed <==> Moved(packs[..i], disk)
    {
      var pack := Reread(packs[i], disk);
      assert packs[..i + 1][..i] == packs[..i];
      MovedSnoc(packs, disk, i);
      if pack.None? {
        FailedPack(packs, disk, i);
        return None, changed;
      }
      if disk(packs[i].path).stamp != packs[i].stamp { changed := true; }
      read := read + [pack.value];
      i := i + 1;
    }
    assert packs[..i] == packs;
    result := Some(read);
  }

  lemma MovedSnoc(packs: seq<Pack>, disk: Disk, i: nat)
    requires i < |packs|
    ensures Moved(packs[..i + 1], disk) <==> Moved(packs[..i], disk) || disk(packs[i].path).stamp != packs[i].stamp
  {
    var a, b := packs[..i], packs[..i + 1];
    assert forall j :: 0 <= j < i ==> a[j] == b[j];
    if Moved(a, disk) {
      var j :| 0 <= j < |a| && disk(a[j].path).stamp != a[j].stamp;
      assert b[j] == a[j];
    }
    assert b[i] == packs[i];
  }

  // ----- Memoised choices -----

  /** Every remembered choice is the fresh choice for the descriptor that asked. */
  ghost predicate Remembered(packs: seq<Pack>, resolved: map<string, Choice>, asked: map<string, Descriptor>) {
    && resolved.Keys == asked.Keys
    && forall k :: k in asked ==> Key(asked[k]) == k && Chosen(packs, asked[k], resolved[k])
  }

  /** Whom an answer is really for: the first descriptor that asked under this key. */
  ghost function Asker(asked: map<string, Descriptor>, d: Descriptor): Descriptor {
    if Key(d) in asked then asked[Key(d)] else d
  }

  /** An answer is for the descriptor at hand if and only if no one asked under its key
      before, or the first who did has equally many separators, text by text. */
  lemma AnswersAreOwnExactly(asked: map<string, Descriptor>, d: Descriptor)
    requires forall k :: k in asked ==> Key(asked[k]) == k
    ensures Asker(asked, d) == d <==> (Key(d) in asked ==> SameBars(asked[Key(d)], d))
  {
    hide Key, SameBars;
    if Key(d) in asked { KeysTellApart(asked[Key(d)], d); }
  }

  /** With no separators in the texts, every answer is for the descriptor at hand. */
  lemma BarlessAnswersAreOwn(asked: map<string, Descriptor>, d: Descriptor)
    requires Barless(d) && forall k :: k in asked ==> Key(asked[k]) == k && Barless(asked[k])
    ensures Asker(asked, d) == d
  {
    hide Key, SameBars;
    AnswersAreOwnExactly(asked, d);
    if Key(d) in asked { BarlessHaveSameBars(asked[Key(d)], d); }
  }

  /** What a fresh scan of `packs` would answer. */
  ghost predicate Fresh(packs: seq<Pack>, d: Descriptor, choice: Option<Choice>) {
    if choice.Some? then Chosen(packs, d, choice.value) else forall p: nat, r: nat :: !Candidate(packs, d, p, r)
  }

  /** The packs with all that decides when they change. */
  datatype Catalogue = Catalogue(packs: seq<Pack>, generation: nat, pending: Option<Pending>)

  /** `pack` is what the manifest parses to, if it does; `ready` whether the reload has ended. */
  datatype Call =
    | Ask(d: Descriptor)
    | Load(pack: Option<Pack>)
    | Request(queued: bool)
    | Poll(disk: Disk, ready: bool)
    | Reload(disk: Disk)

  function Reloaded(c: Catalogue, disk: Disk): Catalogue {
    if Moved(c.packs, disk) && RereadAll(c.packs, disk).Some? then
      c.(packs := RereadAll(c.packs, disk).value, generation := c.generation + 1)
    else c
  }

  function After(c: Catalogue, call: Call): Catalogue {
    match call
    case Ask(_) => c
    case Load(pack) => if pack.None? then c else c.(packs := c.packs + [pack.value], generation := c.generation + 1)
    case Request(queued) =>
      if c.packs != [] && c.pending.None? && queued then c.(pending := Some(Pending(c.generation, c.packs))) else c
    case Poll(disk, ready) =>
      if c.pending.None? || !ready then c
      else (if c.pending.value.base == c.generation then Reloaded(c, disk) else c).(pending := None)
    case Reload(disk) => Reloaded(c, disk)
  }

  function AfterAll(c: Catalogue, calls: seq<Call>): Catalogue {
    if calls == [] then c else After(AfterAll(c, calls[..|calls| - 1]), calls[|calls| - 1])
  }

  // ----- The service -----

  class Service {
    var enabled: bool
    var packs: seq<Pack>
    var generation: nat
    var resolved: map<string, Choice>
    var images: Images
    var imageBytes: nat
    var useSerial: nat
    var pendingReload: Option<Pending>
    var pendingImages: map<string, nat>
    ghost var asked: map<string, Descriptor>
    ghost var loaded: seq<string>
    ghost var served: seq<string>

    ghost predicate Valid()
      reads this
    {
      && Remembered(packs, resolved, asked)
      && Stocked(images, imageBytes, useSerial, generation)
      && Dated(images, served) && |served| == useSerial
      && Paths(packs) == loaded
      && (pendingReload.Some? ==> pendingReload.value.base <= generation)
      && (pendingReload.Some? && pendingReload.value.base == generation ==> pendingReload.value.packs == packs)
      && forall k :: k in pendingImages ==> pendingImages[k] <= generation
    }

    constructor ()
      ensures Valid() && packs == [] && loaded == [] && generation == 0 && asked == map[] && images == map[] && served == []
    {
      enabled, packs, generation, resolved, images, imageBytes, useSerial := false, [], 0, map[], map[], 0, 0;
      pendingReload, pendingImages, asked, loaded, served := None, map[], map[], [], [];
    }

    method ClearCaches()
      modifies this`resolved, this`asked, this`images, this`imageBytes
      ensures resolved == map[] && asked == map[] && images == map[] && imageBytes == 0
    {
      resolved, asked, images, imageBytes := map[], map[], map[], 0;
    }

    ghost function View(): Catalogue
      reads this
    {
      Catalogue(packs, generation, pendingReload)
    }

    /** A new pack goes behind the others and everything remembered is forgotten; a
        manifest that does not parse changes nothing. */
    method LoadPack(pack: Option<Pack>) returns (ok: bool)
      requires Valid()
      modifies this
      ensures Valid() && enabled == old(enabled) && View() == After(old(View()), Load(pack))
      ensures ok <==> pack.Some?
      ensures ok ==> loaded == old(loaded) + [pack.value.path] && asked == map[] && images == map[]
      ensures !ok ==> loaded == old(loaded) && asked == old(asked) && images == old(images)
    {
      hide Remembered, Stocked, Paths;
      if pack.None? { return false; }
      PathsSnoc(packs, pack.value);
      packs := packs + [pack.value];
      loaded := loaded + [pack.value.path];
      generation := generation + 1;
      ClearCaches();
      NothingRemembered(packs, generation, useSerial);
      ok := true;
    }

    /** The choice for a descriptor: from memory, or from a fresh scan. It is always
        the fresh choice for the descriptor that first asked under this key. */
    method Resolve(d: Descriptor) returns (choice: Option<Choice>)
      requires Valid()
      modifies this`resolved, this`asked
      ensures Valid()
      ensures !enabled || d.contentHash == 0 ==> choice == None
      ensures choice.Some? ==> Chosen(packs, Asker(old(asked), d), choice.value)
      ensures enabled && d.contentHash != 0 && choice.None? ==> Key(d) !in old(asked) && forall p: nat, r: nat :: !Candidate(packs, d, p, r)
      ensures asked == if choice.Some? && Key(d) !in old(asked) then old(asked)[Key(d) := d] else old(asked)
      ensures enabled && d.contentHash != 0 && (Key(d) in old(asked) ==> SameBars(old(asked)[Key(d)], d)) ==>
                Fresh(packs, d, choice)
    {
      hide Key, Candidate, IsBest, Stocked, Paths, SameBars;
      AnswersAreOwnExactly(asked, d);
      if !enabled || d.contentHash == 0 { return None; }
      var key := Key(d);
      if key in resolved { return Some(resolved[key]); }
      var best := Scan(packs, d);
      if best.None? { return None; }
      BestInRange(packs, d, best.value.0, best.value.1);
      var found := Choice(packs[best.value.0], packs[best.value.0].rules[best.value.1]);
      resolved := resolved[key := found];
      asked := asked[key := d];
      choice := Some(found);
    }

    /** One request for an image. What is returned is what is cached under the key, or
        what was just decoded: at once where there is no background decoder, otherwise
        for a request submitted under the current generation. */
    method LoadImage(key: string, background: bool, decode: Decode) returns (pixels: Option<seq<nat>>)
      requires Valid()
      modifies this`images, this`imageBytes, this`useSerial, this`pendingImages, this`served
      ensures Valid()
      ensures key in old(images) ==>
                && pixels == Some(old(images)[key].pixels)
                && images == old(images)[key := old(images)[key].(lastUse := useSerial)]
      ensures served == (if pixels.Some? then old(served) + [key] else old(served)) && useSerial == |served|
      ensures EvictsOldest(old(images), images, served)
      ensures key !in old(images) ==>
                (pixels.Some? <==> && decode.Decoded? && 4 * |decode.pixels| <= 67_108_864
                                   && (background ==> key in old(pendingImages) && old(pendingImages)[key] == generation))
      ensures key !in old(images) && pixels.Some? ==>
                && decode == Decoded(pixels.value)
                && Inserted(old(images), images, key, Cached(pixels.value, 4 * |pixels.value|, useSerial, generation))
      ensures key !in old(images) && pixels.None? ==> images == old(images)
      ensures pendingImages ==
                if key in old(images) || !background then old(pendingImages)
                else if key !in old(pendingImages) then old(pendingImages)[key := generation]
                else if decode.NotReady? then old(pendingImages)
                else old(pendingImages) - {key}
    {
      hide Remembered, Paths, Sum, Stocked, Inserted, LastOf, Dated, EvictsOldest;
      NoneEvicted(images, images, served);
      if key in images {
        TouchDates(images, served, key);
        TouchKeepsStock(images, imageBytes, useSerial, generation, key);
        useSerial := useSerial + 1;
        pixels := Some(images[key].pixels);
        images := images[key := images[key].(lastUse := useSerial)];
        served := served + [key];
        NoneEvicted(old(images), images, served);
        return;
      }
      if background {
        if key !in pendingImages {
          pendingImages := pendingImages[key := generation];
          return None;
        }
        if decode.NotReady? { return None; }
        var submitted := pendingImages[key];
        pendingImages := pendingImages - {key};
        if submitted != generation { return None; }
      }
      if !decode.Decoded? { return None; }
      var ok, next, nextBytes := Insert(images, imageBytes, useSerial, generation, key, decode.pixels);
      if !ok { return None; }
      InsertDates(images, next, served, key, Cached(decode.pixels, 4 * |decode.pixels|, useSerial + 1, generation));
      useSerial := useSerial + 1;
      images, imageBytes, served := next, nextBytes, served + [key];
      pixels := Some(decode.pixels);
    }

    /** A reload works on a copy of the packs and remembers their generation. */
    method RequestReload(queued: bool) returns (ok: bool)
      requires Valid()
      modifies this`pendingReload
      ensures Valid()
      ensures ok <==> packs != [] && old(pendingReload).None? && queued
      ensures pendingReload == if ok then Some(Pending(generation, packs)) else old(pendingReload)
      ensures View() == After(old(View()), Request(queued))
    {
      hide Remembered, Stocked, Paths;
      if packs == [] || pendingReload.Some? || !queued { return false; }
      pendingReload := Some(Pending(generation, packs));
      ok := true;
    }

    /** A reload that has ended is taken over only if no pack was loaded or reloaded in
        the meantime; either way no pack is lost. One still running changes nothing. */
    method PollReload(disk: Disk, ready: bool) returns (changed: bool)
      requires Valid()
      modifies this
      ensures Valid() && enabled == old(enabled) && loaded == old(loaded) && Paths(packs) == Paths(old(packs))
      ensures changed <==>
                && ready && old(pendingReload).Some? && old(pendingReload).value.base == old(generation)
                && Moved(old(packs), disk) && RereadAll(old(packs), disk).Some?
      ensures changed ==> packs == RereadAll(old(packs), disk).value && generation == old(generation) + 1
      ensures !changed ==> packs == old(packs) && generation == old(generation)
      ensures pendingReload == if ready then None else old(pendingReload)
      ensures View() == After(old(View()), Poll(disk, ready))
      ensures changed ==> asked == map[] && images == map[]
      ensures !changed ==> asked == old(asked) && images == old(images)
    {
      hide Moved, RereadAll, Remembered, Stocked;
      changed := false;
      if pendingReload.None? || !ready { return; }
      var pending := pendingReload.value;
      pendingReload := None;
      var result, moved := ReloadJob(pending.packs, disk);
      if result.Some? && moved && pending.base == generation {
        packs := result.value;
        generation := generation + 1;
        ClearCaches();
        NothingRemembered(packs, generation, useSerial);
        changed := true;
      }
    }

    /** Reloading while the caller waits: all packs are read again or none is. */
    method ReloadChanged(disk: Disk) returns (changed: bool)
      requires Valid()
      modifies this
      ensures Valid() && enabled == old(enabled) && loaded == old(loaded) && Paths(packs) == Paths(old(packs))
      ensures View() == After(old(View()), Reload(disk))
      ensures changed <==> Moved(old(packs), disk) && RereadAll(old(packs), disk).Some?
      ensures changed ==> packs == RereadAll(old(packs), disk).value && generation == old(generation) + 1
      ensures !changed ==> packs == old(packs) && generation == old(generation)
      ensures pendingReload == old(pendingReload)
      ensures changed ==> asked == map[] && images == map[]
      ensures !changed ==> asked == old(asked) && images == old(images)
    {
      hide Moved, RereadAll, Remembered, Stocked;
      var result, moved := ReloadJob(packs, disk);
      changed := result.Some? && moved;
      if changed {
        packs := result.value;
        generation := generation + 1;
        ClearCaches();
        NothingRemembered(packs, generation, useSerial);
      }
    }
  }

  // ----- Runs of the service -----

  /** Among these, a shared key means equally many separators, text by text. */
  ghost predicate Apart(ds: set<Descriptor>) {
    forall d, e :: d in ds && e in ds && Key(d) == Key(e) ==> SameBars(d, e)
  }

  ghost predicate AskedWithin(asked: map<string, Descriptor>, ds: set<Descriptor>) {
    forall k :: k in asked ==> Key(asked[k]) == k && asked[k] in ds
  }

  lemma FirstAskerIsApart(asked: map<string, Descriptor>, ds: set<Descriptor>, d: Descriptor)
    requires Apart(ds) && AskedWithin(asked, ds) && d in ds
    ensures Key(d) in asked ==> SameBars(asked[Key(d)], d)
    ensures AskedWithin(asked[Key(d) := d], ds)
  {
    hide Key, SameBars;
  }

  /** Over any run of questions, loads, reload requests, polls and reloads: where no two
      of the descriptors share a key with different separators, every answer is what a
      fresh scan of the packs of that moment gives. */
  method Run(service: Service, calls: seq<Call>, ghost ds: set<Descriptor>) returns (answers: seq<Option<Choice>>)
    requires service.Valid() && Apart(ds) && AskedWithin(service.asked, ds)
    requires forall i :: 0 <= i < |calls| && calls[i].Ask? ==> calls[i].d in ds
    modifies service
    ensures service.Valid() && service.enabled == old(service.enabled)
    ensures service.View() == AfterAll(old(service.View()), calls)
    ensures |answers| == |calls|
    ensures forall i :: 0 <= i < |calls| && calls[i].Ask? && service.enabled && calls[i].d.contentHash != 0 ==>
              Fresh(AfterAll(old(service.View()), calls[..i]).packs, calls[i].d, answers[i])
  {
    hide Key, SameBars, After, Fresh, Apart, AskedWithin;
    answers := [];
    for i := 0 to |calls|
      invariant service.Valid() && service.enabled == old(service.enabled) && AskedWithin(service.asked, ds)
      invariant service.View() == AfterAll(old(service.View()), calls[..i])
      invariant |answers| == i
      invariant forall j :: 0 <= j < i && calls[j].Ask? && service.enabled && calls[j].d.contentHash != 0 ==>
                  Fresh(AfterAll(old(service.View()), calls[..j]).packs, calls[j].d, answers[j])
    {
      assert calls[..i + 1][..i] == calls[..i];
      var answer := Serve(service, calls[i], ds);
      answers := answers + [answer];
    }
    assert calls[..|calls|] == calls;
  }

  method Serve(service: Service, call: Call, ghost ds: set<Descriptor>) returns (answer: Option<Choice>)
    requires service.Valid() && Apart(ds) && AskedWithin(service.asked, ds)
    requires call.Ask? ==> call.d in ds
    modifies service
    ensures service.Valid() && service.enabled == old(service.enabled) && AskedWithin(service.asked, ds)
    ensures service.View() == After(old(service.View()), call)
    ensures call.Ask? && service.enabled && call.d.contentHash != 0 ==> Fresh(old(service.packs), call.d, answer)
  {
    hide Key, SameBars, Fresh, Apart, Reloaded;
    answer := None;
    match call {
      case Ask(d) =>
        FirstAskerIsApart(service.asked, ds, d);
        answer := service.Resolve(d);
      case Load(pack) => var _ := service.LoadPack(pack);
      case Request(queued) => var _ := service.RequestReload(queued);
      case Poll(disk, ready) => var _ := service.PollReload(disk, ready);
      case Reload(disk) => var _ := service.ReloadChanged(disk);
    }
  }

  lemma NothingRemembered(packs: seq<Pack>, generation: nat, serial: nat)
    ensures Remembered(packs, map[], map[]) && Stocked(map[], 0, serial, generation)
  {
  }

  lemma BestInRange(packs: seq<Pack>, d: Descriptor, p: nat, r: nat)
    requires IsBest(packs, d, p, r)
    ensures p < |packs| && r < |packs[p].rules| && Chosen(packs, d, Choice(packs[p], packs[p].rules[r]))
  {
  }

  lemma LeftIsOrdered(images: Images, left: Images, serial: nat, generation: nat)
    requires Ordered(images, serial) && KeepsNewest(images, left)
    requires forall k :: k in images ==> images[k].generation == generation
    ensures Ordered(left, serial) && forall k :: k in left ==> left[k].generation == generation
    ensures forall k :: k !in images ==> k !in left
  {
  }

  // ----- Where the key is not enough -----

  function Bar(a: string, b: string): string {
    a + "|" + b
  }

  lemma BarAssoc(a: string, b: string, c: string)
    ensures Bar(Bar(a, b), c) == Bar(a, Bar(b, c))
  {
  }

  lemma JoinedFrom(f: seq<string>, i: nat)
    requires i + 1 < |f|
    ensures Joined(f[i..]) == Bar(f[i], Joined(f[i + 1..]))
  {
    assert f[i..][1..] == f[i + 1..];
  }

  lemma {:induction false} SameFront(f: seq<string>, g: seq<string>, n: nat)
    requires |f| == |g| > n && f[..n] == g[..n] && Joined(f[n..]) == Joined(g[n..])
    ensures Joined(f) == Joined(g)
    decreases n
  {
    if n == 0 {
      assert f[0..] == f && g[0..] == g;
    } else {
      hide Joined, Bar;
      var i := n - 1;
      assert f[i] == f[..n][i] == g[..n][i] == g[i];
      JoinedFrom(f, i);
      JoinedFrom(g, i);
      assert f[..i] == f[..n][..i] == g[..n][..i] == g[..i];
      SameFront(f, g, i);
    }
  }

  /** A separator in the label and one in the palette register shift the numbers
      between them by one field. */
  function ShiftedLeft(d: Descriptor, x: string, y: string, n: nat): Descriptor {
    d.(sourceLabel := Bar(x, Decimal(n)), bank := d.address, address := d.index, index := d.bank, paletteRegister := y)
  }

  function ShiftedRight(d: Descriptor, x: string, y: string, n: nat): Descriptor {
    d.(sourceLabel := x, bank := n, address := d.address, index := d.index, paletteRegister := Bar(Decimal(d.bank), y))
  }

  lemma Regroup(x: string, n1: string, n2: string, n3: string, n4: string, y: string, rest: string)
    ensures Bar(Bar(x, n1), Bar(n2, Bar(n3, Bar(n4, Bar(y, rest))))) == Bar(x, Bar(n1, Bar(n2, Bar(n3, Bar(Bar(n4, y), rest)))))
  {
    hide Bar;
    BarAssoc(x, n1, Bar(n2, Bar(n3, Bar(n4, Bar(y, rest)))));
    BarAssoc(n4, y, rest);
  }

  lemma JoinedMiddle(f: seq<string>)
    requires |f| == 14
    ensures Joined(f[4..]) == Bar(f[4], Bar(f[5], Bar(f[6], Bar(f[7], Bar(f[8], Joined(f[9..]))))))
  {
    hide Joined, Bar;
    JoinedFrom(f, 8);
    JoinedFrom(f, 7);
    JoinedFrom(f, 6);
    JoinedFrom(f, 5);
    JoinedFrom(f, 4);
  }

  lemma ShiftsShareTheirKey(d: Descriptor, x: string, y: string, n: nat)
    ensures Key(ShiftedLeft(d, x, y, n)) == Key(ShiftedRight(d, x, y, n))
  {
    hide HashText, Size, Decimal, Joined, Bar;
    var a, b := ShiftedLeft(d, x, y, n), ShiftedRight(d, x, y, n);
    var f, g := Fields(a), Fields(b);
    JoinedMiddle(f);
    JoinedMiddle(g);
    assert f[9..] == g[9..] && f[..4] == g[..4];
    Regroup(x, Decimal(n), Decimal(d.address), Decimal(d.index), Decimal(d.bank), y, Joined(f[9..]));
    SameFront(f, g, 4);
  }

  lemma OneRule(pack: Pack, rule: Rule, d: Descriptor)
    requires pack.rules == [rule] && Targets(pack, d.machineId)
    ensures Matches(rule, d) ==> Chosen([pack], d, Choice(pack, rule))
    ensures !Matches(rule, d) ==> forall p: nat, r: nat :: !Candidate([pack], d, p, r)
  {
    hide Matches, Targets;
    var packs := [pack];
    if Matches(rule, d) {
      assert IsBest(packs, d, 0, 0);
    }
  }

  lemma TwoRules(pack: Pack, general: Rule, special: Rule, d: Descriptor)
    requires pack.rules == [general, special] && general.specificity < special.specificity
    requires Targets(pack, d.machineId) && Matches(general, d)
    ensures Chosen([pack], d, Choice(pack, if Matches(special, d) then special else general))
  {
    hide Matches, Targets;
    assert IsBest([pack], d, 0, if Matches(special, d) then 1 else 0);
  }

  /** A pack for every machine, and a rule for everything that looks like `d`. */
  function PackOf(rules: seq<Rule>): Pack {
    Pack("", "", [], 0, rules, 0)
  }

  function Lookalikes(d: Descriptor): Rule {
    Rule(d.kind, "", UnknownFormat, "", None, None, None, "", None, 0, 0, 0, d.contentHash, 0, 0, 0, 0, [])
  }

  /** Some packs give `a` a replacement that they do not give `b`. */
  ghost predicate Separable(a: Descriptor, b: Descriptor) {
    exists packs: seq<Pack>, choice: Choice :: Chosen(packs, a, choice) && !Chosen(packs, b, choice)
  }

  lemma NotCandidateNotChosen(packs: seq<Pack>, d: Descriptor, choice: Choice)
    requires forall p: nat, r: nat :: !Candidate(packs, d, p, r)
    ensures !Chosen(packs, d, choice)
  {
  }

  lemma SeparatedByOne(a: Descriptor, b: Descriptor, rule: Rule)
    requires Matches(rule, a) && !Matches(rule, b)
    ensures Separable(a, b)
  {
    hide Matches, Chosen, Candidate;
    var pack := PackOf([rule]);
    OneRule(pack, rule, a);
    OneRule(pack, rule, b);
    NotCandidateNotChosen([pack], b, Choice(pack, rule));
  }

  /** A rule that matches only one of the two is enough, whichever it is. */
  lemma SeparatedByRule(a: Descriptor, b: Descriptor, rule: Rule)
    requires a.contentHash != 0 && Matches(rule, a) != Matches(rule, b) && rule.specificity > 0
    ensures Separable(a, b)
  {
    var general := Lookalikes(a);
    assert Matches(general, a);
    hide Matches, Chosen;
    if Matches(rule, a) {
      SeparatedByOne(a, b, rule);
    } else if !Matches(general, b) {
      SeparatedByOne(a, b, general);
    } else {
      var pack := PackOf([general, rule]);
      TwoRules(pack, general, rule, a);
      TwoRules(pack, general, rule, b);
      if Chosen([pack], b, Choice(pack, general)) {
        ChosenOnce([pack], b, Choice(pack, general), Choice(pack, rule));
      }
    }
  }

  lemma SeparatedByMachine(a: Descriptor, b: Descriptor)
    requires a.contentHash != 0 && a.machineId != b.machineId
    ensures Separable(a, b)
  {
    var rule := Lookalikes(a);
    var pack := PackOf([rule]).(targets := [a.machineId]);
    assert Matches(rule, a);
    hide Matches, Chosen;
    OneRule(pack, rule, a);
    NotCandidateNotChosen([pack], b, Choice(pack, rule));
  }

  lemma SeparatedByText(a: Descriptor, b: Descriptor)
    requires a.contentHash != 0 && (a.sourceLabel != b.sourceLabel || a.paletteRegister != b.paletteRegister)
    ensures Separable(a, b)
  {
    hide Separable;
    var wanted := a.sourceLabel !in ["", b.sourceLabel] || a.paletteRegister !in ["", b.paletteRegister];
    var like := if wanted then a else b;
    var rule := Lookalikes(like).(sourceLabel := like.sourceLabel, paletteRegister := like.paletteRegister, specificity := 1);
    if Matches(rule, a) != Matches(rule, b) {
      SeparatedByRule(a, b, rule);
    } else {
      SeparatedByOne(a, b, Lookalikes(a));
    }
  }

  /** Of two descriptors that share a key, the second is always given its own answer,
      whatever the packs, if and only if their free texts hold equally many separators,
      text by text. */
  lemma MemoIsRightExactly(a: Descriptor, b: Descriptor)
    requires Key(a) == Key(b) && a.contentHash != 0
    ensures SameBars(a, b) <==> forall packs: seq<Pack>, choice: Choice :: Chosen(packs, a, choice) ==> Chosen(packs, b, choice)
  {
    hide Key, Chosen, SameBars;
    KeysTellApart(a, b);
    if !SameBars(a, b) {
      assert Separable(a, b) by {
        DifferInText(a, b);
        if a.machineId != b.machineId { SeparatedByMachine(a, b); } else { SeparatedByText(a, b); }
      }
    }
  }

  lemma DifferInText(a: Descriptor, b: Descriptor)
    requires !SameBars(a, b)
    ensures a.machineId != b.machineId || a.sourceLabel != b.sourceLabel || a.paletteRegister != b.paletteRegister
  {
  }

  /** A shift through label and palette register makes such a pair: where a fresh scan
      gives the second another answer, it gets the first one's replacement. */
  lemma SeparatorsConfuseTheMemo(d: Descriptor, x: string, y: string, n: nat)
    requires d.contentHash != 0
    ensures var a, b := ShiftedLeft(d, x, y, n), ShiftedRight(d, x, y, n);
            Key(a) == Key(b) && Separable(a, b)
  {
    hide Key, Decimal, Separable;
    var a, b := ShiftedLeft(d, x, y, n), ShiftedRight(d, x, y, n);
    ShiftsShareTheirKey(d, x, y, n);
    assert |a.sourceLabel| > |b.sourceLabel|;
    SeparatedByText(a, b);
  }

  /** Machine and label make one as well: the fields between them can stand in either. */
  lemma MachineAndLabelShareTheirKey(d: Descriptor, m: string, x: string)
    requires d.contentHash != 0
    ensures var between := Bar(KindName(d.kind), Bar(Size(d.width, d.height), FormatName(d.format)));
            var a, b := d.(machineId := Bar(m, between), sourceLabel := x), d.(machineId := m, sourceLabel := Bar(between, x));
            Key(a) == Key(b) && Separable(a, b)
  {
    hide HashText, Size, Decimal, Joined, KindName, FormatName, Separable;
    var k, z, f := KindName(d.kind), Size(d.width, d.height), FormatName(d.format);
    var between := Bar(k, Bar(z, f));
    var a, b := d.(machineId := Bar(m, between), sourceLabel := x), d.(machineId := m, sourceLabel := Bar(between, x));
    JoinedFront(Fields(a));
    JoinedFront(Fields(b));
    assert Fields(a)[5..] == Fields(b)[5..];
    RegroupFront(m, k, z, f, x, Joined(Fields(a)[5..]));
    assert |a.machineId| > |b.machineId|;
    SeparatedByMachine(a, b);
  }

  lemma JoinedFront(f: seq<string>)
    requires |f| == 14
    ensures Joined(f) == Bar(f[0], Bar(f[1], Bar(f[2], Bar(f[3], Bar(f[4], Joined(f[5..]))))))
  {
    hide Joined, Bar;
    JoinedFrom(f, 4);
    JoinedFrom(f, 3);
    JoinedFrom(f, 2);
    JoinedFrom(f, 1);
    JoinedFrom(f, 0);
    assert f[0..] == f;
  }

  lemma RegroupFront(m: string, k: string, z: string, f: string, x: string, rest: string)
    ensures var between := Bar(k, Bar(z, f));
            Bar(Bar(m, between), Bar(k, Bar(z, Bar(f, Bar(x, rest))))) ==
            Bar(m, Bar(k, Bar(z, Bar(f, Bar(Bar(between, x), rest)))))
  {
    hide Bar;
    var between := Bar(k, Bar(z, f));
    var tail := Bar(k, Bar(z, Bar(f, Bar(x, rest))));
    BarAssoc(m, between, tail);
    BarAssoc(between, x, rest);
    BarAssoc(k, Bar(z, f), tail);
    BarAssoc(z, f, tail);
    BarAssoc(k, Bar(z, f), Bar(x, rest));
    BarAssoc(z, f, Bar(x, rest));
  }
}
