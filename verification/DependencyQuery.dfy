/** The bounded breadth-first walk that answers dependency-path queries. */
module DependencyQuery {
  import opened Graphs

  const MAX_ITEMS := 16384

  /** `d` is the length of a shortest walk from `u` to `v`. */
  ghost predicate Distance(g: Graph, u: Id, v: Id, d: nat) {
    Walk(g, u, v, d) && forall k: nat :: k < d ==> !Walk(g, u, v, k)
  }

  function Successors(g: Graph, n: Id): set<Id> {
    if n in g then g[n] else {}
  }

  datatype Item = Item(id: Id, depth: nat, depthLimited: bool)

  type Queue = seq<(Id, nat)>

  ghost predicate Queued(todo: Queue, n: Id) {
    exists k :: 0 <= k < |todo| && todo[k].0 == n
  }

  /** Each node once, at its distance, in order of distance, never more than
      one level ahead of the item being served. */
  ghost predicate Levelled(g: Graph, id: Id, todo: Queue, index: nat) {
    && |todo| > 0 && todo[0] == (id, 0) && index <= |todo|
    && (forall i, j :: 0 <= i < j < |todo| ==> todo[i].0 != todo[j].0 && todo[i].1 <= todo[j].1)
    && (forall i :: 0 <= i < |todo| ==> Distance(g, id, todo[i].0, todo[i].1))
    && (index < |todo| ==> todo[|todo| - 1].1 <= todo[index].1 + 1)
  }

  ghost predicate Bounded(todo: Queue, depth: nat) {
    forall i :: 0 <= i < |todo| ==> todo[i].1 <= depth
  }

  /** The successors of every item served above the depth limit are queued. */
  ghost predicate Served(g: Graph, todo: Queue, index: nat, depth: nat) {
    forall i, c: Id :: 0 <= i < index && i < |todo| && todo[i].1 < depth && Edge(g, todo[i].0, c) ==> Queued(todo, c)
  }

  lemma {:induction false} WalkLast(g: Graph, u: Id, v: Id, n: nat) returns (w: Id)
    requires n > 0 && Walk(g, u, v, n)
    ensures Walk(g, u, w, n - 1) && Edge(g, w, v)
    decreases n
  {
    var x: Id :| Edge(g, u, x) && Walk(g, x, v, n - 1);
    if n == 1 {
      w := u;
    } else {
      w := WalkLast(g, x, v, n - 1);
      assert Edge(g, u, x) && Walk(g, x, w, n - 2);
    }
  }

  /** Every node within `k` edges is queued, as long as all shallower items are served. */
  lemma {:induction false} NearIsQueued(g: Graph, id: Id, todo: Queue, index: nat, depth: nat, n: Id, k: nat)
    requires Levelled(g, id, todo, index) && Served(g, todo, index, depth)
    requires k <= depth && (index < |todo| ==> k <= todo[index].1)
    requires Walk(g, id, n, k)
    ensures Queued(todo, n)
    decreases k
  {
    if k > 0 {
      var w := WalkLast(g, id, n, k);
      NearIsQueued(g, id, todo, index, depth, w, k - 1);
      var i :| 0 <= i < |todo| && todo[i].0 == w;
      assert Distance(g, id, w, todo[i].1);
      assert todo[i].1 <= k - 1;
      assert i < index;
    } else {
      assert todo[0].0 == id;
    }
  }

  /** Queues the successors not seen before, one level down. */
  method Expand(g: Graph, id: Id, seen: set<Id>, todo: Queue, index: nat, depth: nat)
    returns (seen': set<Id>, todo': Queue)
    requires Levelled(g, id, todo, index) && Bounded(todo, depth) && Served(g, todo, index, depth)
    requires index < |todo| && todo[index].1 < depth
    requires forall n: Id :: n in seen <==> Queued(todo, n)
    ensures todo <= todo' && Levelled(g, id, todo', index + 1) && Bounded(todo', depth)
    ensures Served(g, todo', index + 1, depth)
    ensures (forall n: Id :: n in seen' <==> Queued(todo', n)) && seen' == seen + Successors(g, todo[index].0)
  {
    hide Distance, Served;
    seen', todo' := seen, todo;
    var (cur, d) := todo[index];
    var rest := Successors(g, cur);
    while rest != {}
      invariant rest <= Successors(g, cur) && todo <= todo'
      invariant Levelled(g, id, todo', index) && Bounded(todo', depth)
      invariant forall n: Id :: n in seen' <==> Queued(todo', n)
      invariant seen' == seen + (Successors(g, cur) - rest)
    {
      var c :| c in rest;
      rest := rest - {c};
      if c !in seen' {
        NewDistance(g, id, todo, index, depth, todo', c);
        todo' := Enqueue(g, id, todo', index, c);
        seen' := seen' + {c};
      }
    }
    Expanded(g, id, todo, todo', index, depth);
  }

  /** With all its successors queued, the item has been served. */
  lemma Expanded(g: Graph, id: Id, todo: Queue, todo': Queue, index: nat, depth: nat)
    requires Levelled(g, id, todo', index) && Served(g, todo, index, depth)
    requires todo <= todo' && index < |todo|
    requires forall c: Id :: c in Successors(g, todo[index].0) ==> Queued(todo', c)
    ensures Levelled(g, id, todo', index + 1) && Served(g, todo', index + 1, depth)
  {
    forall i, c: Id | 0 <= i < index + 1 && todo'[i].1 < depth && Edge(g, todo'[i].0, c)
      ensures Queued(todo', c)
    {
      assert todo'[i] == todo[i];
      if i < index { QueuedMore(todo, todo', c); }
    }
  }

  lemma QueuedMore(todo: Queue, todo': Queue, n: Id)
    requires todo <= todo'
    ensures Queued(todo, n) ==> Queued(todo', n)
  {
    if Queued(todo, n) {
      var i :| 0 <= i < |todo| && todo[i].0 == n;
      assert todo'[i].0 == n;
    }
  }

  lemma NewDistance(g: Graph, id: Id, todo: Queue, index: nat, depth: nat, todo': Queue, c: Id)
    requires Levelled(g, id, todo, index) && Served(g, todo, index, depth) && todo <= todo'
    requires index < |todo| && todo[index].1 < depth
    requires Edge(g, todo[index].0, c) && !Queued(todo', c)
    ensures Distance(g, id, c, todo[index].1 + 1)
  {
    var (cur, d) := todo[index];
    ReachEdge(g, cur, c);
    WalkAppend(g, id, cur, c, d, 1);
    QueuedMore(todo, todo', c);
    forall k: nat | k < d + 1
      ensures !Walk(g, id, c, k)
    {
      if Walk(g, id, c, k) {
        NearIsQueued(g, id, todo, index, depth, c, k);
      }
    }
  }

  function Enqueue(g: Graph, id: Id, todo: Queue, index: nat, c: Id): (todo': Queue)
    requires Levelled(g, id, todo, index) && index < |todo|
    requires !Queued(todo, c) && Distance(g, id, c, todo[index].1 + 1)
    ensures Levelled(g, id, todo', index)
    ensures todo <= todo' && |todo'| == |todo| + 1 && todo'[|todo|] == (c, todo[index].1 + 1)
    ensures forall n: Id :: Queued(todo', n) <==> Queued(todo, n) || n == c
  {
    QueuedAppend(todo, c, todo[index].1 + 1);
    todo + [(c, todo[index].1 + 1)]
  }

  lemma QueuedAppend(todo: Queue, c: Id, d: nat)
    ensures forall n: Id :: Queued(todo + [(c, d)], n) <==> Queued(todo, n) || n == c
  {
    var todo' := todo + [(c, d)];
    assert todo'[|todo|].0 == c;
    forall n: Id
      ensures Queued(todo', n) <==> Queued(todo, n) || n == c
    {
      QueuedMore(todo, todo', n);
    }
  }

  /** What a query returns: the items in breadth-first order, whether the depth
      limit cut something off, and whether the item budget did. */
  datatype Answer = Answer(items: seq<Item>, depthLimited: bool, resourceLimited: bool)

  ghost predicate Listed(items: seq<Item>, n: Id) {
    exists k :: 0 <= k < |items| && items[k].id == n
  }

  /** Items are distinct nodes at their exact distance, nearest first, flagged
      exactly when the limit hides successors. */
  ghost predicate Faithful(g: Graph, id: Id, depth: nat, a: Answer) {
    && (forall i, j :: 0 <= i < j < |a.items| ==> a.items[i].id != a.items[j].id && a.items[i].depth <= a.items[j].depth)
    && (forall i :: 0 <= i < |a.items| ==>
          && Distance(g, id, a.items[i].id, a.items[i].depth)
          && a.items[i].depth <= depth
          && (a.items[i].depthLimited <==> a.items[i].depth == depth && Successors(g, a.items[i].id) != {}))
    && (a.depthLimited <==> SomeLimited(a.items))
  }

  ghost predicate SomeLimited(items: seq<Item>) {
    exists i :: 0 <= i < |items| && items[i].depthLimited
  }

  lemma SomeLimitedAppend(items: seq<Item>, item: Item)
    ensures SomeLimited(items + [item]) <==> SomeLimited(items) || item.depthLimited
  {
    var items' := items + [item];
    assert items'[|items|] == item;
    if i :| 0 <= i < |items| && items[i].depthLimited {
      assert items'[i].depthLimited;
    }
  }

  ghost predicate Exhaustive(g: Graph, id: Id, depth: nat, items: seq<Item>) {
    forall n: Id, k: nat :: k <= depth && Walk(g, id, n, k) ==> Listed(items, n)
  }

  /** Even a cut-off answer skips nothing nearer than its last item. */
  ghost predicate NearestFirst(g: Graph, id: Id, items: seq<Item>) {
    forall n: Id, k: nat :: |items| > 0 && k < items[|items| - 1].depth && Walk(g, id, n, k) ==> Listed(items, n)
  }

  /** Within `depth` edges of `id`. */
  ghost predicate Near(g: Graph, id: Id, depth: nat, n: Id) {
    exists k: nat :: k <= depth && Walk(g, id, n, k)
  }

  /** There are more such nodes than the budget holds. */
  ghost predicate TooMany(g: Graph, id: Id, depth: nat) {
    exists s: set<Id> :: |s| > 16384 && forall n :: n in s ==> Near(g, id, depth, n)
  }

  /** What serving the first `n` items turns up: themselves and the successors of all
      that are above the depth limit. */
  function TurnedUp(g: Graph, id: Id, depth: nat, items: seq<Item>, n: nat): set<Id>
    requires n <= |items|
  {
    if n == 0 then {id}
    else
      var item := items[n - 1];
      TurnedUp(g, id, depth, items, n - 1) + (if item.depth < depth then Successors(g, item.id) else {})
  }

  /** The walk is cut off behind the very first item whose service turns up too much. */
  ghost predicate CutWhereFull(g: Graph, id: Id, depth: nat, a: Answer) {
    && (forall n: nat :: n < |a.items| ==> |TurnedUp(g, id, depth, a.items, n)| <= 16384)
    && (a.resourceLimited <==> |TurnedUp(g, id, depth, a.items, |a.items|)| > 16384)
  }

  lemma {:induction false} TurnedUpFront(g: Graph, id: Id, depth: nat, items: seq<Item>, item: Item, n: nat)
    requires n <= |items|
    ensures TurnedUp(g, id, depth, items + [item], n) == TurnedUp(g, id, depth, items, n)
  {
    if n > 0 { TurnedUpFront(g, id, depth, items, item, n - 1); }
  }

  /** The queue holds as many nodes as have been seen. */
  lemma {:induction false} SeenAreQueued(seen: set<Id>, todo: Queue)
    requires forall n: Id :: n in seen <==> Queued(todo, n)
    requires forall i, j :: 0 <= i < j < |todo| ==> todo[i].0 != todo[j].0
    ensures |seen| == |todo|
    decreases |todo|
  {
    if todo == [] {
      assert forall n: Id :: !Queued(todo, n);
      assert seen == {};
    } else {
      var front, last := todo[..|todo| - 1], todo[|todo| - 1];
      assert todo == front + [last];
      QueuedAppend(front, last.0, last.1);
      forall n: Id ensures n in seen - {last.0} <==> Queued(front, n) {
        if i :| 0 <= i < |front| && front[i].0 == n { assert todo[i].0 != last.0; }
      }
      SeenAreQueued(seen - {last.0}, front);
      assert Queued(todo, last.0);
    }
  }

  lemma SubsetIsSmaller(a: set<Id>, b: set<Id>)
    requires a <= b
    ensures |a| <= |b|
  {
    assert b == a + (b - a);
  }

  /** Everything seen lies within reach of the limit. */
  lemma SeenAreNear(g: Graph, id: Id, seen: set<Id>, todo: Queue, items: seq<Item>, depth: nat)
    requires Serving(g, id, seen, todo, items, depth)
    ensures |seen| == |todo| && forall n :: n in seen ==> Near(g, id, depth, n)
    ensures |todo| > MAX_ITEMS ==> TooMany(g, id, depth)
  {
    SeenAreQueued(seen, todo);
    forall n | n in seen
      ensures Near(g, id, depth, n)
    {
      var i :| 0 <= i < |todo| && todo[i].0 == n;
      assert Distance(g, id, n, todo[i].1);
    }
  }

  /** Where the queue ran dry, it held everything within reach. */
  lemma DryIsNotTooMany(g: Graph, id: Id, seen: set<Id>, todo: Queue, items: seq<Item>, depth: nat)
    requires Serving(g, id, seen, todo, items, depth) && |items| == |todo| <= MAX_ITEMS
    ensures !TooMany(g, id, depth)
  {
    SeenAreQueued(seen, todo);
    if s: set<Id> :| |s| > MAX_ITEMS && forall n :: n in s ==> Near(g, id, depth, n) {
      forall n | n in s
        ensures n in seen
      {
        assert Near(g, id, depth, n);
        var k: nat :| k <= depth && Walk(g, id, n, k);
        NearIsQueued(g, id, todo, |todo|, depth, n, k);
      }
      SubsetIsSmaller(s, seen);
    }
  }

  /** The items served so far are the front of the queue. */
  ghost predicate Mirrors(g: Graph, todo: Queue, items: seq<Item>, depth: nat) {
    && |items| <= |todo|
    && forall i :: 0 <= i < |items| ==>
         items[i] == Item(todo[i].0, todo[i].1, todo[i].1 == depth && Successors(g, todo[i].0) != {})
  }

  lemma ServedNearestFirst(g: Graph, id: Id, todo: Queue, depth: nat, items: seq<Item>)
    requires |items| > 0 && Mirrors(g, todo, items, depth) && Bounded(todo, depth)
    requires Levelled(g, id, todo, |items|) && Served(g, todo, |items|, depth)
    ensures NearestFirst(g, id, items)
  {
    var last := |items| - 1;
    forall n: Id, k: nat | k < items[last].depth && Walk(g, id, n, k)
      ensures Listed(items, n)
    {
      NearIsQueued(g, id, todo, |items|, depth, n, k);
      var i :| 0 <= i < |todo| && todo[i].0 == n;
      assert Distance(g, id, n, todo[i].1);
      assert todo[i].1 <= k;
      assert i < last;
      assert items[i].id == n;
    }
  }

  lemma AllServedIsExhaustive(g: Graph, id: Id, todo: Queue, depth: nat, items: seq<Item>)
    requires |items| == |todo| && Mirrors(g, todo, items, depth)
    requires Levelled(g, id, todo, |todo|) && Served(g, todo, |todo|, depth)
    ensures Exhaustive(g, id, depth, items)
  {
    forall n: Id, k: nat | k <= depth && Walk(g, id, n, k)
      ensures Listed(items, n)
    {
      NearIsQueued(g, id, todo, |todo|, depth, n, k);
      var i :| 0 <= i < |todo| && todo[i].0 == n;
      assert items[i].id == n;
    }
  }

  ghost predicate Serving(g: Graph, id: Id, seen: set<Id>, todo: Queue, items: seq<Item>, depth: nat) {
    && Levelled(g, id, todo, |items|) && Bounded(todo, depth) && Served(g, todo, |items|, depth)
    && Mirrors(g, todo, items, depth)
    && (forall n: Id :: n in seen <==> Queued(todo, n)) && seen == TurnedUp(g, id, depth, items, |items|)
  }

  /** At the depth limit there is nothing to expand. */
  lemma LimitServed(g: Graph, id: Id, todo: Queue, index: nat, depth: nat)
    requires Levelled(g, id, todo, index) && Bounded(todo, depth) && Served(g, todo, index, depth)
    requires index < |todo| && todo[index].1 >= depth
    ensures Levelled(g, id, todo, index + 1) && Served(g, todo, index + 1, depth)
  {
  }

  lemma MirrorsMore(g: Graph, todo: Queue, todo': Queue, items: seq<Item>, depth: nat)
    requires Mirrors(g, todo, items, depth) && |items| < |todo| && todo <= todo'
    ensures var (cur, d) := todo[|items|];
            Mirrors(g, todo', items + [Item(cur, d, d == depth && Successors(g, cur) != {})], depth)
  {
  }

  method Serve(g: Graph, id: Id, seen: set<Id>, todo: Queue, items: seq<Item>, depth: nat)
    returns (seen': set<Id>, todo': Queue, item: Item)
    requires Serving(g, id, seen, todo, items, depth) && |items| < |todo|
    ensures Serving(g, id, seen', todo', items + [item], depth)
  {
    var index := |items|;
    assert |todo| > 0 && todo[index].1 <= depth;
    hide Levelled, Bounded, Served, Mirrors, Queued;
    var (cur, d) := todo[index];
    item := Item(cur, d, d == depth && Successors(g, cur) != {});
    if d < depth {
      seen', todo' := Expand(g, id, seen, todo, index, depth);
    } else {
      seen', todo' := seen, todo;
      LimitServed(g, id, todo, index, depth);
    }
    MirrorsMore(g, todo, todo', items, depth);
    TurnedUpFront(g, id, depth, items, item, index);
  }

  lemma ServingIsFaithful(g: Graph, id: Id, seen: set<Id>, todo: Queue, items: seq<Item>, depth: nat, limited: bool, cut: bool)
    requires Serving(g, id, seen, todo, items, depth)
    requires limited <==> SomeLimited(items)
    ensures Faithful(g, id, depth, Answer(items, limited, cut))
  {
  }

  /** Behind the last item served nothing was full yet. */
  ghost predicate NeverFull(g: Graph, id: Id, depth: nat, items: seq<Item>) {
    forall n: nat :: n < |items| ==> |TurnedUp(g, id, depth, items, n)| <= MAX_ITEMS
  }

  lemma StillNotFull(g: Graph, id: Id, depth: nat, items: seq<Item>, item: Item)
    requires NeverFull(g, id, depth, items) && |TurnedUp(g, id, depth, items, |items|)| <= MAX_ITEMS
    ensures NeverFull(g, id, depth, items + [item])
  {
    forall n: nat | n < |items + [item]|
      ensures |TurnedUp(g, id, depth, items + [item], n)| <= MAX_ITEMS
    {
      TurnedUpFront(g, id, depth, items, item, n);
    }
  }

  /** The answer is cut off if and only if more than the budget lies within the depth,
      and then behind the first item that shows it. */
  method DependencyPath(g: Graph, id: Id, depth: nat) returns (a: Answer)
    ensures Faithful(g, id, depth, a)
    ensures !a.resourceLimited ==> Exhaustive(g, id, depth, a.items)
    ensures NearestFirst(g, id, a.items)
    ensures a.resourceLimited <==> TooMany(g, id, depth)
    ensures CutWhereFull(g, id, depth, a) && |a.items| <= 16384
  {
    hide TurnedUp, TooMany;
    var seen: set<Id>, todo: Queue := {id}, [(id, 0)];
    var items: seq<Item>, limited := [], false;
    assert Walk(g, id, id, 0);
    assert todo[0].0 == id;
    NothingTurnedUp(g, id, depth);
    while |items| < |todo|
      invariant Serving(g, id, seen, todo, items, depth) && 0 < |todo| <= MAX_ITEMS
      invariant (limited <==> SomeLimited(items)) && NeverFull(g, id, depth, items)
      decreases MAX_ITEMS - |items|
    {
      SeenAreNear(g, id, seen, todo, items, depth);
      var item;
      ghost var before := items;
      seen, todo, item := Serve(g, id, seen, todo, items, depth);
      StillNotFull(g, id, depth, before, item);
      SomeLimitedAppend(items, item);
      items, limited := items + [item], limited || item.depthLimited;
      if |todo| > MAX_ITEMS {
        SeenAreNear(g, id, seen, todo, items, depth);
        ServedNearestFirst(g, id, todo, depth, items);
        ServingIsFaithful(g, id, seen, todo, items, depth, limited, true);
        return Answer(items, limited, true);
      }
    }
    SeenAreNear(g, id, seen, todo, items, depth);
    DryIsNotTooMany(g, id, seen, todo, items, depth);
    ServedNearestFirst(g, id, todo, depth, items);
    AllServedIsExhaustive(g, id, todo, depth, items);
    ServingIsFaithful(g, id, seen, todo, items, depth, limited, false);
    a := Answer(items, limited, false);
  }

  lemma NothingTurnedUp(g: Graph, id: Id, depth: nat)
    ensures TurnedUp(g, id, depth, [], 0) == {id} && NeverFull(g, id, depth, [])
  {
  }
}
