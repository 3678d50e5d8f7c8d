/** The structural-cycle search of the analyser: an iterative two-pass
    Kosaraju over explicit stacks. */
module LoopAnalysis {
  import opened Graphs

  // ----- First pass: a depth-first finishing order -----

  type Stack = seq<(Id, bool)>

  ghost predicate Distinct<T>(s: seq<T>) {
    forall i, j :: 0 <= i < j < |s| ==> s[i] != s[j]
  }

  /** What finishing at position `i` of `order` promises, whatever is finished
      later: from some `s` on, everything finished up to then is reachable
      from `order[i]`, and no edge leads from the part before `s` into the
      rest of `order[..i + 1]`. */
  ghost predicate FinishedFrom(g: Graph, order: seq<Id>, i: nat, s: nat)
    requires i < |order|
  {
    && s <= i
    && (forall k :: s <= k < i ==> Reach(g, order[i], order[k]))
    && (forall k, c: Id :: 0 <= k < s && Edge(g, order[k], c) ==>
          c in order[..s] || c !in order[..i + 1])
  }

  ghost predicate Finished(g: Graph, order: seq<Id>, i: nat)
    requires i < |order|
  {
    exists s: nat :: FinishedFrom(g, order, i, s)
  }

  ghost predicate Finishing(g: Graph, order: seq<Id>) {
    && Distinct(order)
    && (forall n: Id :: n in order ==> n in g)
    && (forall i :: 0 <= i < |order| ==> Finished(g, order, i))
  }

  ghost predicate IsFinishingOrder(g: Graph, order: seq<Id>) {
    Finishing(g, order) && forall n: Id :: n in g ==> n in order
  }

  /** A node is visited exactly when it is finished or open (on the stack with
      its mark). */
  ghost predicate Colours(g: Graph, todo: Stack, visited: set<Id>, order: seq<Id>) {
    && (forall k :: 0 <= k < |todo| ==> todo[k].0 in g)
    && (forall n: Id :: n in visited <==> n in order || (n, true) in todo)
    && (forall n: Id :: n in order ==> (n, true) !in todo)
    && (forall i, j :: 0 <= i < j < |todo| && todo[i].1 && todo[j].1 ==> todo[i].0 != todo[j].0)
  }

  /** Open nodes reach everything above them on the stack, and everything that
      finished since they were opened. */
  ghost predicate Descends(g: Graph, todo: Stack, order: seq<Id>, since: map<Id, nat>) {
    && (forall i, k :: 0 <= i <= k < |todo| && todo[i].1 ==> Reach(g, todo[i].0, todo[k].0))
    && (forall i :: 0 <= i < |todo| && todo[i].1 ==>
          todo[i].0 in since && since[todo[i].0] <= |order|)
    && (forall i, k :: 0 <= i < |todo| && todo[i].1 && since[todo[i].0] <= k < |order| ==>
          Reach(g, todo[i].0, order[k]))
  }

  /** Where edges of finished nodes may lead: now, and when each open node was opened. */
  ghost predicate Settled(g: Graph, todo: Stack, visited: set<Id>, order: seq<Id>, since: map<Id, nat>)
    requires Descends(g, todo, order, since)
  {
    && (forall k, c: Id :: 0 <= k < |order| && Edge(g, order[k], c) ==> c in visited)
    && (forall i, k, c: Id :: 0 <= i < |todo| && todo[i].1 && 0 <= k < since[todo[i].0] && Edge(g, order[k], c) ==>
          c in order[..since[todo[i].0]] || (c, true) in todo[..i])
  }

  /** Successors of an open node are visited or still waiting above it. */
  ghost predicate Pending(g: Graph, todo: Stack, visited: set<Id>) {
    forall i, c: Id :: 0 <= i < |todo| && todo[i].1 && Edge(g, todo[i].0, c) ==>
      c in visited || (c, false) in todo[i + 1..]
  }

  ghost predicate Searching(g: Graph, todo: Stack, visited: set<Id>, order: seq<Id>, since: map<Id, nat>) {
    && Closed(g)
    && Finishing(g, order)
    && Colours(g, todo, visited, order)
    && Descends(g, todo, order, since)
    && Settled(g, todo, visited, order, since)
    && Pending(g, todo, visited)
  }

  lemma SkipStep(g: Graph, todo: Stack, visited: set<Id>, order: seq<Id>, since: map<Id, nat>)
    requires Searching(g, todo, visited, order, since)
    requires todo != [] && !todo[|todo| - 1].1 && todo[|todo| - 1].0 in visited
    ensures Searching(g, todo[..|todo| - 1], visited, order, since)
  {
    var rest, last := todo[..|todo| - 1], todo[|todo| - 1];
    assert todo == rest + [last];
    assert forall i :: 0 <= i < |rest| ==> todo[..i] == rest[..i];
    assert Descends(g, rest, order, since);
    assert Settled(g, rest, visited, order, since);
    SkipPending(g, todo, visited);
  }

  lemma SkipPending(g: Graph, todo: Stack, visited: set<Id>)
    requires Pending(g, todo, visited)
    requires todo != [] && !todo[|todo| - 1].1 && todo[|todo| - 1].0 in visited
    ensures Pending(g, todo[..|todo| - 1], visited)
  {
    var rest, last := todo[..|todo| - 1], todo[|todo| - 1];
    forall i, c: Id | 0 <= i < |rest| && rest[i].1 && Edge(g, rest[i].0, c)
      ensures c in visited || (c, false) in rest[i + 1..]
    {
      assert todo[i] == rest[i];
      assert todo[i + 1..] == rest[i + 1..] + [last];
    }
  }

  lemma FinishStep(g: Graph, todo: Stack, visited: set<Id>, order: seq<Id>, since: map<Id, nat>)
    requires Searching(g, todo, visited, order, since)
    requires todo != [] && todo[|todo| - 1].1
    ensures Searching(g, todo[..|todo| - 1], visited, order + [todo[|todo| - 1].0], since)
  {
    FinishOrder(g, todo, visited, order, since);
    FinishColours(g, todo, visited, order);
    FinishDescends(g, todo, visited, order, since);
    FinishSettled(g, todo, visited, order, since);
    FinishPending(g, todo, visited);
  }

  lemma FinishOrder(g: Graph, todo: Stack, visited: set<Id>, order: seq<Id>, since: map<Id, nat>)
    requires Finishing(g, order) && Colours(g, todo, visited, order)
    requires Descends(g, todo, order, since) && Settled(g, todo, visited, order, since)
    requires todo != [] && todo[|todo| - 1].1
    ensures Finishing(g, order + [todo[|todo| - 1].0])
  {
    var id := todo[|todo| - 1].0;
    var order' := order + [id];
    assert (id, true) in todo;
    forall i | 0 <= i < |order'|
      ensures Finished(g, order', i)
    {
      if i < |order| {
        assert Finished(g, order, i);
        var s: nat :| FinishedFrom(g, order, i, s);
        assert order'[..i + 1] == order[..i + 1] && order'[..s] == order[..s];
        assert FinishedFrom(g, order', i, s);
      } else {
        FinishedNow(g, todo, visited, order, since);
      }
    }
  }

  lemma FinishedNow(g: Graph, todo: Stack, visited: set<Id>, order: seq<Id>, since: map<Id, nat>)
    requires Colours(g, todo, visited, order)
    requires Descends(g, todo, order, since) && Settled(g, todo, visited, order, since)
    requires todo != [] && todo[|todo| - 1].1
    ensures Finished(g, order + [todo[|todo| - 1].0], |order|)
  {
    var top := |todo| - 1;
    var id := todo[top].0;
    var s := since[id];
    var order' := order + [id];
    assert order'[..|order| + 1] == order' && order'[..s] == order[..s];
    forall k, c: Id | 0 <= k < s && Edge(g, order'[k], c)
      ensures c in order'[..s] || c !in order'
    {
      assert Edge(g, order[k], c);
      if c !in order[..s] {
        assert (c, true) in todo[..top];
        var j :| 0 <= j < |todo[..top]| && todo[..top][j] == (c, true);
        assert todo[j] == (c, true) && j < top;
        assert c !in order && c != id;
      }
    }
    assert FinishedFrom(g, order', |order|, s);
  }

  lemma FinishColours(g: Graph, todo: Stack, visited: set<Id>, order: seq<Id>)
    requires Colours(g, todo, visited, order)
    requires todo != [] && todo[|todo| - 1].1
    ensures Colours(g, todo[..|todo| - 1], visited, order + [todo[|todo| - 1].0])
  {
    var rest, id := todo[..|todo| - 1], todo[|todo| - 1].0;
    assert todo == rest + [(id, true)];
    assert (id, true) !in rest;
  }

  lemma FinishDescends(g: Graph, todo: Stack, visited: set<Id>, order: seq<Id>, since: map<Id, nat>)
    requires Colours(g, todo, visited, order) && Descends(g, todo, order, since)
    requires todo != [] && todo[|todo| - 1].1
    ensures Descends(g, todo[..|todo| - 1], order + [todo[|todo| - 1].0], since)
  {
    var rest, id := todo[..|todo| - 1], todo[|todo| - 1].0;
    forall i | 0 <= i < |rest| && rest[i].1
      ensures Reach(g, rest[i].0, id)
    {
      assert todo[i].1 && Reach(g, todo[i].0, todo[|todo| - 1].0);
    }
  }

  lemma FinishSettled(g: Graph, todo: Stack, visited: set<Id>, order: seq<Id>, since: map<Id, nat>)
    requires Descends(g, todo, order, since) && Settled(g, todo, visited, order, since)
    requires Pending(g, todo, visited)
    requires todo != [] && todo[|todo| - 1].1
    requires Descends(g, todo[..|todo| - 1], order + [todo[|todo| - 1].0], since)
    ensures Settled(g, todo[..|todo| - 1], visited, order + [todo[|todo| - 1].0], since)
  {
    var top := |todo| - 1;
    var rest, id := todo[..top], todo[top].0;
    var order' := order + [id];
    forall c: Id | Edge(g, id, c)
      ensures c in visited
    {
      assert todo[top + 1..] == [];
      assert (c, false) !in todo[top + 1..];
    }
    forall i, k, c: Id | 0 <= i < |rest| && rest[i].1 && 0 <= k < since[rest[i].0] && Edge(g, order'[k], c)
      ensures c in order'[..since[rest[i].0]] || (c, true) in rest[..i]
    {
      assert todo[i] == rest[i] && order'[k] == order[k];
      assert rest[..i] == todo[..i];
      assert order'[..since[rest[i].0]] == order[..since[rest[i].0]];
    }
  }

  lemma FinishPending(g: Graph, todo: Stack, visited: set<Id>)
    requires Pending(g, todo, visited)
    requires todo != [] && todo[|todo| - 1].1
    ensures Pending(g, todo[..|todo| - 1], visited)
  {
    var rest, id := todo[..|todo| - 1], todo[|todo| - 1].0;
    forall i, c: Id | 0 <= i < |rest| && rest[i].1 && Edge(g, rest[i].0, c)
      ensures c in visited || (c, false) in rest[i + 1..]
    {
      assert todo[i] == rest[i];
      assert todo[i + 1..] == rest[i + 1..] + [(id, true)];
    }
  }

  lemma OpenStep(g: Graph, todo: Stack, visited: set<Id>, order: seq<Id>, since: map<Id, nat>, todo': Stack)
    requires Searching(g, todo, visited, order, since)
    requires todo != [] && !todo[|todo| - 1].1 && todo[|todo| - 1].0 !in visited
    requires var id := todo[|todo| - 1].0; Pushed(g, id, visited + {id}, todo[..|todo| - 1] + [(id, true)], todo')
    ensures var id := todo[|todo| - 1].0; Searching(g, todo', visited + {id}, order, since[id := |order|])
  {
    OpenColours(g, todo, visited, order, todo');
    OpenDescends(g, todo, visited, order, since, todo');
    OpenSettled(g, todo, visited, order, since, todo');
    OpenPending(g, todo, visited, todo');
  }

  lemma OpenSettled(g: Graph, todo: Stack, visited: set<Id>, order: seq<Id>, since: map<Id, nat>, todo': Stack)
    requires Colours(g, todo, visited, order)
    requires Descends(g, todo, order, since) && Settled(g, todo, visited, order, since)
    requires todo != [] && !todo[|todo| - 1].1 && todo[|todo| - 1].0 !in visited
    requires var id := todo[|todo| - 1].0; Pushed(g, id, visited + {id}, todo[..|todo| - 1] + [(id, true)], todo')
    requires Descends(g, todo', order, since[todo[|todo| - 1].0 := |order|])
    ensures var id := todo[|todo| - 1].0; Settled(g, todo', visited + {id}, order, since[id := |order|])
  {
    var top := |todo| - 1;
    var id := todo[top].0;
    var since' := since[id := |order|];
    assert (id, true) !in todo;
    assert todo'[top] == (id, true);
    forall i, k, c: Id | 0 <= i < |todo'| && todo'[i].1 && 0 <= k < since'[todo'[i].0] && Edge(g, order[k], c)
      ensures c in order[..since'[todo'[i].0]] || (c, true) in todo'[..i]
    {
      assert i <= top;
      assert todo'[..i] == todo[..i];
      if i < top {
        assert todo'[i] == todo[i];
      } else if c !in order {
        assert c in visited && (c, true) in todo;
        assert todo == todo[..top] + [(id, false)];
      }
    }
  }

  lemma OpenPending(g: Graph, todo: Stack, visited: set<Id>, todo': Stack)
    requires Pending(g, todo, visited)
    requires todo != [] && !todo[|todo| - 1].1 && todo[|todo| - 1].0 !in visited
    requires var id := todo[|todo| - 1].0; Pushed(g, id, visited + {id}, todo[..|todo| - 1] + [(id, true)], todo')
    ensures Pending(g, todo', visited + {todo[|todo| - 1].0})
  {
    var top := |todo| - 1;
    var id := todo[top].0;
    assert todo'[top] == (id, true);
    forall i, c: Id | 0 <= i < |todo'| && todo'[i].1 && Edge(g, todo'[i].0, c) && c !in visited + {id}
      ensures (c, false) in todo'[i + 1..]
    {
      if i < top {
        assert todo[i] == todo'[i];
        var k :| 0 <= k < |todo[i + 1..]| && todo[i + 1..][k] == (c, false);
        assert todo[i + 1 + k] == (c, false) && i + 1 + k < top;
        assert todo'[i + 1..][k] == todo'[i + 1 + k];
      } else {
        assert i == top && todo'[top + 1..] == todo'[|todo|..];
      }
    }
  }

  lemma OpenColours(g: Graph, todo: Stack, visited: set<Id>, order: seq<Id>, todo': Stack)
    requires Closed(g) && Colours(g, todo, visited, order)
    requires todo != [] && !todo[|todo| - 1].1 && todo[|todo| - 1].0 !in visited
    requires var id := todo[|todo| - 1].0; Pushed(g, id, visited + {id}, todo[..|todo| - 1] + [(id, true)], todo')
    ensures Colours(g, todo', visited + {todo[|todo| - 1].0}, order)
  {
    var top := |todo| - 1;
    var id := todo[top].0;
    assert (id, true) !in todo && id !in order;
    assert forall i :: 0 <= i < top ==> todo'[i] == todo[i];
    assert todo'[top] == (id, true);
    assert forall i :: top < i < |todo'| ==> !todo'[i].1;
    forall n: Id
      ensures (n, true) in todo' <==> n == id || (n, true) in todo
    {
      if (n, true) in todo {
        var k :| 0 <= k < |todo| && todo[k] == (n, true);
        assert todo'[k] == (n, true);
      }
    }
  }

  lemma OpenDescends(g: Graph, todo: Stack, visited: set<Id>, order: seq<Id>, since: map<Id, nat>, todo': Stack)
    requires Colours(g, todo, visited, order) && Descends(g, todo, order, since)
    requires todo != [] && !todo[|todo| - 1].1 && todo[|todo| - 1].0 !in visited
    requires var id := todo[|todo| - 1].0; Pushed(g, id, visited + {id}, todo[..|todo| - 1] + [(id, true)], todo')
    ensures Descends(g, todo', order, since[todo[|todo| - 1].0 := |order|])
  {
    var top := |todo| - 1;
    var id := todo[top].0;
    assert (id, true) !in todo;
    assert forall i :: 0 <= i < top ==> todo'[i] == todo[i];
    assert todo'[top] == (id, true);
    forall i, k | 0 <= i <= k < |todo'| && todo'[i].1
      ensures Reach(g, todo'[i].0, todo'[k].0)
    {
      ReachSelf(g, id);
      if k > top {
        ReachEdge(g, id, todo'[k].0);
        assert Reach(g, todo'[i].0, id) by {
          if i < top { assert Reach(g, todo[i].0, todo[top].0); }
        }
        ReachTrans(g, todo'[i].0, id, todo'[k].0);
      } else if i < top {
        assert Reach(g, todo[i].0, todo[k].0);
      }
    }
  }

  /** `todo'` is `todo` with an entry pushed for every successor of `id` not yet visited. */
  ghost predicate Pushed(g: Graph, id: Id, visited: set<Id>, todo: Stack, todo': Stack) {
    && id in g
    && todo <= todo'
    && (forall k :: |todo| <= k < |todo'| ==>
          !todo'[k].1 && todo'[k].0 in g[id] && todo'[k].0 !in visited)
    && (forall c: Id :: c in g[id] && c !in visited ==> (c, false) in todo'[|todo|..])
  }

  method PushSuccessors(g: Graph, id: Id, visited: set<Id>, todo: Stack) returns (todo': Stack)
    requires id in g
    ensures Pushed(g, id, visited, todo, todo')
  {
    todo' := todo;
    var rest := g[id];
    while rest != {}
      invariant rest <= g[id] && todo <= todo'
      invariant forall k :: |todo| <= k < |todo'| ==>
                  !todo'[k].1 && todo'[k].0 in g[id] && todo'[k].0 !in visited
      invariant forall c: Id :: c in g[id] - rest && c !in visited ==> (c, false) in todo'[|todo|..]
    {
      var c :| c in rest;
      rest := rest - {c};
      if c !in visited {
        assert (todo' + [(c, false)])[|todo|..] == todo'[|todo|..] + [(c, false)];
        todo' := todo' + [(c, false)];
      }
    }
  }

  /** The depth-first search from one root: explores everything not yet visited. */
  method SearchFrom(g: Graph, root: Id, visited: set<Id>, order: seq<Id>) returns (visited': set<Id>, order': seq<Id>)
    requires root in g && root !in visited && Searching(g, [], visited, order, map[])
    ensures Searching(g, [], visited', order', map[])
    ensures visited + {root} <= visited'
  {
    visited', order' := visited, order;
    var todo: Stack := [(root, false)];
    ghost var since: map<Id, nat> := map[];
    while todo != []
      invariant Searching(g, todo, visited', order', since)
      invariant visited <= visited'
      invariant root in visited' || todo == [(root, false)]
      decreases g.Keys - visited', |todo|
    {
      var (id, done) := todo[|todo| - 1];
      if done {
        FinishStep(g, todo, visited', order', since);
        todo, order' := todo[..|todo| - 1], order' + [id];
      } else if id in visited' {
        SkipStep(g, todo, visited', order', since);
        todo := todo[..|todo| - 1];
      } else {
        var todo' := PushSuccessors(g, id, visited' + {id}, todo[..|todo| - 1] + [(id, true)]);
        OpenStep(g, todo, visited', order', since, todo');
        todo, visited', since := todo', visited' + {id}, since[id := |order'|];
      }
    }
    assert Searching(g, [], visited', order', map[]);
  }

  /** The first pass. Roots and successors are taken in any order. */
  method FinishingOrder(g: Graph) returns (order: seq<Id>)
    requires Closed(g)
    ensures IsFinishingOrder(g, order)
  {
    order := [];
    var visited: set<Id> := {};
    var roots := g.Keys;
    while roots != {}
      invariant roots <= g.Keys && g.Keys - roots <= visited
      invariant Searching(g, [], visited, order, map[])
    {
      var root :| root in roots;
      roots := roots - {root};
      if root !in visited {
        visited, order := SearchFrom(g, root, visited, order);
      }
    }
  }

  // ----- Second pass: components on the transposed graph -----

  /** Whole components only: visiting one node of a component means visiting all of it. */
  ghost predicate Saturated(g: Graph, visited: set<Id>) {
    forall a: Id, b: Id :: a in visited && b in g && Mutual(g, a, b) ==> b in visited
  }

  method PushUnvisited(t: Graph, id: Id, visited: set<Id>, todo: seq<Id>) returns (visited': set<Id>, todo': seq<Id>)
    requires id in t
    ensures visited' == visited + t[id]
    ensures todo <= todo'
    ensures forall n: Id :: n in todo'[|todo|..] <==> n in t[id] && n !in visited
    ensures visited' == visited ==> todo' == todo
  {
    visited', todo' := visited, todo;
    var rest := t[id];
    while rest != {}
      invariant rest <= t[id] && todo <= todo'
      invariant visited' == visited + (t[id] - rest)
      invariant forall n: Id :: n in todo'[|todo|..] <==> n in t[id] - rest && n !in visited
      invariant visited' == visited ==> todo' == todo
    {
      var n :| n in rest;
      rest := rest - {n};
      if n !in visited' {
        assert (todo' + [n])[|todo|..] == todo'[|todo|..] + [n];
        visited', todo' := visited' + {n}, todo' + [n];
      }
    }
  }

  /** `members` is what the transposed graph leads to from `root` without entering `before`. */
  ghost predicate Collected(g: Graph, before: set<Id>, root: Id, members: set<Id>) {
    && root in members && members !! before
    && (forall n: Id :: n in members ==> n in g && Reach(Within(g, g.Keys - before), n, root))
    && (forall m: Id, n: Id :: m in members && Edge(g, n, m) ==> n in members || n in before)
  }

  method Collect(g: Graph, t: Graph, root: Id, before: set<Id>) returns (members: set<Id>, visited: set<Id>)
    requires Closed(g) && Transposed(g, t) && root in g && root !in before
    ensures Collected(g, before, root, members)
    ensures visited == before + members
  {
    var todo := [root];
    members, visited := {}, before + {root};
    ghost var rest := Within(g, g.Keys - before);
    ReachSelf(rest, root);
    while todo != []
      invariant forall n: Id :: n in visited <==> n in before || n in members || n in todo
      invariant root in members || root in todo
      invariant members !! before && forall n: Id :: n in todo ==> n !in before
      invariant forall n: Id :: n in members || n in todo ==> n in g && Reach(rest, n, root)
      invariant forall m: Id, n: Id :: m in members && Edge(g, n, m) ==> n in visited
      decreases g.Keys - visited, |todo|
    {
      var id := todo[|todo| - 1];
      assert todo == todo[..|todo| - 1] + [id];
      ghost var seen := visited;
      var visited', todo' := PushUnvisited(t, id, visited, todo[..|todo| - 1]);
      members := members + {id};
      forall n: Id | n in t[id] && n !in seen
        ensures n in g && Reach(rest, n, root)
      {
        TransposedInside(g, t, id, n);
        ReachEdge(rest, n, id);
        ReachTrans(rest, n, id, root);
      }
      forall n: Id | Edge(g, n, id)
        ensures n in t[id]
      {
        assert Edge(t, id, n);
      }
      assert todo' == todo[..|todo| - 1] + todo'[|todo| - 1..];
      visited, todo := visited', todo';
    }
  }

  /** The transposed graph holds no edge to a node outside, and every one of its edges reversed is an edge. */
  lemma TransposedInside(g: Graph, t: Graph, id: Id, n: Id)
    requires Closed(g) && Transposed(g, t) && id in g && n in t[id]
    ensures Edge(g, n, id)
  {
    assert Edge(t, id, n);
  }

  /** A walk that avoids `before` never leaves the part of the order that
      finished before position `s`. */
  lemma StaysEarly(g: Graph, order: seq<Id>, i: nat, s: nat, before: set<Id>, n: Id)
    requires IsFinishingOrder(g, order) && i < |order| && FinishedFrom(g, order, i, s)
    requires forall k :: i < k < |order| ==> order[k] in before
    requires Reach(Within(g, g.Keys - before), n, order[i])
    ensures n in order[..s] ==> order[i] in order[..s]
  {
    var rest := Within(g, g.Keys - before);
    var early := set x | x in order[..s];
    forall a: Id, b: Id | a in early && Edge(rest, a, b)
      ensures b in early
    {
      var k :| 0 <= k < s && order[k] == a;
      assert Edge(g, order[k], b);
      var j :| 0 <= j < |order| && order[j] == b;
      assert j <= i;
      assert b == order[..i + 1][j];
    }
    if n in early {
      var len: nat :| Walk(rest, n, order[i], len);
      WalkStays(rest, early, n, order[i], len);
    }
  }

  lemma FinishedLater(g: Graph, order: seq<Id>, i: nat, s: nat, n: Id)
    requires i < |order| && FinishedFrom(g, order, i, s)
    requires n in order[..i + 1] && n !in order[..s]
    ensures Reach(g, order[i], n)
  {
    assert order[..i + 1] == order[..s] + order[s..i + 1];
    var j :| 0 <= j < |order[s..i + 1]| && order[s..i + 1][j] == n;
    assert order[s + j] == n;
    ReachSelf(g, n);
  }

  /** Nothing outside the component of `order[i]` is collected: a collected
      node that finished earlier was opened above it, so it is reachable. */
  lemma CollectedReached(g: Graph, order: seq<Id>, i: nat, before: set<Id>, n: Id)
    requires IsFinishingOrder(g, order) && i < |order|
    requires forall k :: i < k < |order| ==> order[k] in before
    requires n in g && n !in before
    requires Reach(Within(g, g.Keys - before), n, order[i])
    ensures Mutual(g, order[i], n)
  {
    assert Finished(g, order, i);
    var s: nat :| FinishedFrom(g, order, i, s);
    StaysEarly(g, order, i, s, before, n);
    assert order[i] !in order[..s] by {
      assert forall k :: 0 <= k < s ==> order[..s][k] == order[k] != order[i];
    }
    assert n in order[..i + 1] by {
      var k :| 0 <= k < |order| && order[k] == n;
      assert order[..i + 1][k] == n;
    }
    FinishedLater(g, order, i, s, n);
    var len: nat :| Walk(Within(g, g.Keys - before), n, order[i], len);
    WalkWithin(g, g.Keys - before, n, order[i], len);
  }

  /** Everything in the component is collected: no walk inside it meets `before`. */
  lemma {:induction false} ComponentCollected(g: Graph, before: set<Id>, root: Id, members: set<Id>, n: Id, len: nat)
    requires Closed(g) && Collected(g, before, root, members) && Saturated(g, before)
    requires root in g && n in g && Reach(g, root, n) && Walk(g, n, root, len)
    ensures n in members
    decreases len
  {
    assert Mutual(g, n, root);
    assert n !in before;
    if len > 0 {
      var w: Id :| Edge(g, n, w) && Walk(g, w, root, len - 1);
      ReachEdge(g, n, w);
      ReachTrans(g, root, n, w);
      ComponentCollected(g, before, root, members, w, len - 1);
    }
  }

  lemma CollectedIsComponent(g: Graph, order: seq<Id>, i: nat, before: set<Id>, members: set<Id>)
    requires Closed(g) && IsFinishingOrder(g, order) && i < |order|
    requires forall k :: i < k < |order| ==> order[k] in before
    requires order[i] !in before && Saturated(g, before)
    requires Collected(g, before, order[i], members)
    ensures members == Component(g, order[i])
    ensures Saturated(g, before + members)
  {
    var root := order[i];
    forall n: Id | n in g
      ensures n in members <==> n in Component(g, root)
    {
      if n in members {
        CollectedReached(g, order, i, before, n);
      }
      if Mutual(g, root, n) {
        var len: nat :| Walk(g, n, root, len);
        ComponentCollected(g, before, root, members, n, len);
      }
    }
    forall a: Id, b: Id | a in before + members && b in g && Mutual(g, a, b)
      ensures b in before + members
    {
      if a in members {
        ReachTrans(g, root, a, b);
        ReachTrans(g, b, a, root);
      }
    }
  }

  // ----- Publishing the loops -----

  /** A published structural cycle with the edges that cross its boundary. */
  datatype Loop = Loop(members: set<Id>, entries: seq<(Id, Id)>, exits: seq<(Id, Id)>)

  /** A component is a loop when it has two or more members or a self-edge. */
  ghost predicate Cyclic(g: Graph, c: set<Id>) {
    |c| >= 2 || exists m: Id :: m in c && Edge(g, m, m)
  }

  /** `entries` and `exits` list each boundary edge exactly once. */
  ghost predicate Bounded(g: Graph, l: Loop) {
    && Distinct(l.entries) && Distinct(l.exits)
    && (forall u: Id, v: Id :: (u, v) in l.entries <==> Edge(g, u, v) && v in l.members && u !in l.members)
    && (forall u: Id, v: Id :: (u, v) in l.exits <==> Edge(g, u, v) && u in l.members && v !in l.members)
  }

  /** `c` is the component of a visited node. */
  ghost predicate Meets(g: Graph, visited: set<Id>, c: set<Id>) {
    exists r: Id :: r in visited && r in g && c == Component(g, r)
  }

  ghost predicate Listed(loops: seq<Loop>, c: set<Id>) {
    exists i :: 0 <= i < |loops| && loops[i].members == c
  }

  /** Every published loop is a cyclic component with its exact boundary. */
  ghost predicate Sound(g: Graph, visited: set<Id>, loops: seq<Loop>) {
    forall i :: 0 <= i < |loops| ==>
      Bounded(g, loops[i]) && Cyclic(g, loops[i].members) && Meets(g, visited, loops[i].members)
  }

  /** Every cyclic component of a visited node is published. */
  ghost predicate Complete(g: Graph, visited: set<Id>, loops: seq<Loop>) {
    forall r: Id :: r in visited && Cyclic(g, Component(g, r)) ==> Listed(loops, Component(g, r))
  }

  ghost predicate Separate(loops: seq<Loop>) {
    forall i, j :: 0 <= i < j < |loops| ==> loops[i].members !! loops[j].members
  }

  /** `loops` are exactly the cyclic components that meet `visited`, each once. */
  ghost predicate Publishes(g: Graph, visited: set<Id>, loops: seq<Loop>) {
    Sound(g, visited, loops) && Complete(g, visited, loops) && Separate(loops)
  }

  /** `loopOf` names, for each member of a loop, the loop it is in. */
  ghost predicate Indexes(loops: seq<Loop>, loopOf: map<Id, nat>) {
    && (forall n: Id :: n in loopOf ==> loopOf[n] < |loops| && n in loops[loopOf[n]].members)
    && (forall i, n: Id :: 0 <= i < |loops| && n in loops[i].members ==> n in loopOf)
  }

  /** The neighbours of `member` outside `members`, each once, paired by `outward`. */
  method CrossingEdges(neighbours: set<Id>, member: Id, members: set<Id>, outward: bool, edges: seq<(Id, Id)>)
    returns (edges': seq<(Id, Id)>)
    requires Distinct(edges)
    requires forall e :: e in edges ==> (if outward then e.0 else e.1) != member
    ensures Distinct(edges')
    ensures forall e :: e in edges' <==>
              || e in edges
              || (outward && e.0 == member && e.1 in neighbours && e.1 !in members)
              || (!outward && e.1 == member && e.0 in neighbours && e.0 !in members)
  {
    edges' := edges;
    var rest := neighbours;
    while rest != {}
      invariant rest <= neighbours && Distinct(edges')
      invariant forall e :: e in edges' <==>
                  || e in edges
                  || (outward && e.0 == member && e.1 in neighbours - rest && e.1 !in members)
                  || (!outward && e.1 == member && e.0 in neighbours - rest && e.0 !in members)
    {
      var n :| n in rest;
      rest := rest - {n};
      if n !in members {
        var e := if outward then (member, n) else (n, member);
        assert e !in edges';
        edges' := edges' + [e];
      }
    }
  }

  method Boundary(g: Graph, t: Graph, members: set<Id>) returns (l: Loop)
    requires Closed(g) && Transposed(g, t) && members <= g.Keys
    ensures l.members == members && Bounded(g, l)
  {
    var entries: seq<(Id, Id)>, exits: seq<(Id, Id)> := [], [];
    var rest := members;
    while rest != {}
      invariant rest <= members && Distinct(entries) && Distinct(exits)
      invariant forall u: Id, v: Id :: (u, v) in entries <==> Edge(t, v, u) && v in members - rest && u !in members
      invariant forall u: Id, v: Id :: (u, v) in exits <==> Edge(g, u, v) && u in members - rest && v !in members
    {
      var m :| m in rest;
      rest := rest - {m};
      entries := CrossingEdges(t[m], m, members, false, entries);
      exits := CrossingEdges(g[m], m, members, true, exits);
    }
    l := Loop(members, entries, exits);
    forall u: Id, v: Id | v in members
      ensures Edge(t, v, u) <==> Edge(g, u, v)
    {
      if u in t[v] { TransposedInside(g, t, v, u); }
    }
  }

  /** A component not yet visited shares no node with those visited. */
  lemma FreshComponent(g: Graph, visited: set<Id>, root: Id, c: set<Id>)
    requires Saturated(g, visited) && root in g && root !in visited
    requires Meets(g, visited, c)
    ensures c !! Component(g, root)
  {
    var r: Id :| r in visited && r in g && c == Component(g, r);
    forall n: Id | n in c
      ensures n !in Component(g, root)
    {
      assert Mutual(g, r, n) && n in visited;
    }
  }

  lemma MeetsMore(g: Graph, visited: set<Id>, visited': set<Id>, c: set<Id>)
    requires visited <= visited' && Meets(g, visited, c)
    ensures Meets(g, visited', c)
  {
  }

  lemma KeepsListed(loops: seq<Loop>, l: Loop, c: set<Id>)
    requires Listed(loops, c) || l.members == c
    ensures Listed(loops + [l], c)
  {
    var loops' := loops + [l];
    if l.members == c {
      assert loops'[|loops|].members == c;
    } else {
      var i :| 0 <= i < |loops| && loops[i].members == c;
      assert loops'[i].members == c;
    }
  }

  lemma StaysSound(g: Graph, visited: set<Id>, visited': set<Id>, loops: seq<Loop>)
    requires Sound(g, visited, loops) && visited <= visited'
    ensures Sound(g, visited', loops)
  {
    forall i | 0 <= i < |loops|
      ensures Meets(g, visited', loops[i].members)
    {
      MeetsMore(g, visited, visited', loops[i].members);
    }
  }

  lemma StaysSeparate(g: Graph, visited: set<Id>, loops: seq<Loop>, root: Id, l: Loop)
    requires Sound(g, visited, loops) && Separate(loops)
    requires Saturated(g, visited) && root in g && root !in visited && l.members == Component(g, root)
    ensures Separate(loops + [l])
  {
    forall i | 0 <= i < |loops|
      ensures loops[i].members !! l.members
    {
      FreshComponent(g, visited, root, loops[i].members);
    }
  }

  lemma StaysComplete(g: Graph, visited: set<Id>, loops: seq<Loop>, root: Id, l: Loop)
    requires Complete(g, visited, loops) && root in g && l.members == Component(g, root)
    ensures Complete(g, visited + l.members, loops + [l])
  {
    forall r: Id | r in visited + l.members && Cyclic(g, Component(g, r))
      ensures Listed(loops + [l], Component(g, r))
    {
      if r in l.members { ComponentsAgree(g, root, r); }
      KeepsListed(loops, l, Component(g, r));
    }
  }

  lemma PublishLoop(g: Graph, visited: set<Id>, loops: seq<Loop>, root: Id, l: Loop)
    requires Publishes(g, visited, loops) && Saturated(g, visited) && root in g && root !in visited
    requires Bounded(g, l) && Cyclic(g, l.members) && l.members == Component(g, root)
    ensures Publishes(g, visited + l.members, loops + [l])
  {
    StaysSeparate(g, visited, loops, root, l);
    StaysComplete(g, visited, loops, root, l);
    StaysSound(g, visited, visited + l.members, loops);
    ReachSelf(g, root);
    assert Meets(g, visited + l.members, l.members);
  }

  lemma PublishNothing(g: Graph, visited: set<Id>, loops: seq<Loop>, root: Id)
    requires Publishes(g, visited, loops) && root in g
    requires !Cyclic(g, Component(g, root))
    ensures Publishes(g, visited + Component(g, root), loops)
  {
    var visited' := visited + Component(g, root);
    StaysSound(g, visited, visited', loops);
    forall r: Id | r in visited' && Cyclic(g, Component(g, r))
      ensures Listed(loops, Component(g, r))
    {
      if r in Component(g, root) { ComponentsAgree(g, root, r); }
    }
  }

  /** The test the search makes before it drops a component. */
  predicate Dropped(g: Graph, members: set<Id>, only: Id)
    requires only in g && only in members
  {
    members == {only} && only !in g[only]
  }

  lemma DroppedIsAcyclic(g: Graph, members: set<Id>, only: Id)
    requires only in g && only in members
    ensures Dropped(g, members, only) <==> !Cyclic(g, members)
  {
    if |members| < 2 {
      SmallSet(members, only);
    }
  }

  /** Publishes the component `members`, unless it is dropped. */
  method Publish(g: Graph, t: Graph, members: set<Id>, loops: seq<Loop>, loopOf: map<Id, nat>, ghost visited: set<Id>, ghost root: Id)
    returns (loops': seq<Loop>, loopOf': map<Id, nat>)
    requires Closed(g) && Transposed(g, t) && root in g && root !in visited
    requires Publishes(g, visited, loops) && Saturated(g, visited) && Indexes(loops, loopOf)
    requires members == Component(g, root) && root in members
    ensures Publishes(g, visited + members, loops') && Indexes(loops', loopOf')
  {
    var only :| only in members;
    DroppedIsAcyclic(g, members, only);
    if Dropped(g, members, only) {
      PublishNothing(g, visited, loops, root);
      return loops, loopOf;
    }
    var l := Boundary(g, t, members);
    PublishLoop(g, visited, loops, root, l);
    loops' := loops + [l];
    loopOf' := Reindexed(loops, loopOf, l);
  }

  function Reindexed(loops: seq<Loop>, loopOf: map<Id, nat>, l: Loop): (loopOf': map<Id, nat>)
    requires Indexes(loops, loopOf)
    ensures Indexes(loops + [l], loopOf')
  {
    map n | n in loopOf.Keys + l.members :: if n in l.members then |loops| else loopOf[n]
  }

  /** Where the second pass stands with `order[i..]` done. */
  ghost predicate SecondPass(g: Graph, order: seq<Id>, i: nat, visited: set<Id>, loops: seq<Loop>, loopOf: map<Id, nat>) {
    && i <= |order|
    && visited <= g.Keys && Saturated(g, visited)
    && (forall k :: i <= k < |order| ==> order[k] in visited)
    && Publishes(g, visited, loops) && Indexes(loops, loopOf)
  }

  method TakeRoot(g: Graph, t: Graph, order: seq<Id>, i: nat, visited: set<Id>, loops: seq<Loop>, loopOf: map<Id, nat>)
    returns (visited': set<Id>, loops': seq<Loop>, loopOf': map<Id, nat>)
    requires Closed(g) && Transposed(g, t) && IsFinishingOrder(g, order)
    requires i < |order| && SecondPass(g, order, i + 1, visited, loops, loopOf)
    ensures SecondPass(g, order, i, visited', loops', loopOf')
  {
    if order[i] in visited { return visited, loops, loopOf; }
    var members;
    members, visited' := Collect(g, t, order[i], visited);
    CollectedIsComponent(g, order, i, visited, members);
    loops', loopOf' := Publish(g, t, members, loops, loopOf, visited, order[i]);
  }

  /** The whole search: both passes and the loops they publish. */
  method FindLoops(g: Graph, t: Graph) returns (loops: seq<Loop>, loopOf: map<Id, nat>)
    requires Closed(g) && Transposed(g, t)
    ensures Publishes(g, g.Keys, loops)
    ensures Indexes(loops, loopOf)
  {
    var order := FinishingOrder(g);
    var visited: set<Id> := {};
    loops, loopOf := [], map[];
    var i: nat := |order|;
    while i > 0
      invariant SecondPass(g, order, i, visited, loops, loopOf)
    {
      i := i - 1;
      visited, loops, loopOf := TakeRoot(g, t, order, i, visited, loops, loopOf);
    }
    assert visited == g.Keys by {
      forall n: Id | n in g
        ensures n in visited
      {
        var k :| 0 <= k < |order| && order[k] == n;
      }
    }
  }

  lemma SmallSet(s: set<Id>, x: Id)
    requires x in s && |s| < 2
    ensures s == {x}
  {
    assert |s - {x}| == |s| - 1;
    assert s == (s - {x}) + {x};
  }

  // ----- What a reader of the published loops learns -----

  ghost predicate OnCycle(g: Graph, n: Id) {
    exists len: nat :: len > 0 && Walk(g, n, n, len)
  }

  ghost predicate InLoop(loops: seq<Loop>, n: Id) {
    exists i :: 0 <= i < |loops| && n in loops[i].members
  }

  lemma OnCycleStep(g: Graph, n: Id)
    requires Closed(g) && n in g
    ensures OnCycle(g, n) <==> exists w: Id :: Edge(g, n, w) && Reach(g, w, n)
  {
    if OnCycle(g, n) {
      var len: nat :| len > 0 && Walk(g, n, n, len);
      var w: Id :| Edge(g, n, w) && Walk(g, w, n, len - 1);
      assert Reach(g, w, n);
    }
    if w: Id :| Edge(g, n, w) && Reach(g, w, n) {
      var k: nat :| Walk(g, w, n, k);
      assert Walk(g, n, n, k + 1);
    }
  }

  /** A component is cyclic exactly when each of its nodes lies on a cycle. */
  lemma CyclicMeansOnCycle(g: Graph, n: Id)
    requires Closed(g) && n in g
    ensures Cyclic(g, Component(g, n)) <==> OnCycle(g, n)
  {
    var c := Component(g, n);
    ReachSelf(g, n);
    OnCycleStep(g, n);
    if OnCycle(g, n) {
      var w: Id :| Edge(g, n, w) && Reach(g, w, n);
      ReachEdge(g, n, w);
      assert w in c && n in c;
      if w != n {
        assert {n, w} <= c;
        assert |c| == |c - {n, w}| + 2;
      }
    }
    if Cyclic(g, c) {
      var m: Id :| m in c && (m != n || Edge(g, n, n)) by {
        if |c| >= 2 {
          assert |c - {n}| == |c| - 1;
          var m :| m in c - {n};
        } else {
          SmallSet(c, n);
        }
      }
      if m != n {
        var len: nat :| Walk(g, n, m, len);
        var w: Id :| Edge(g, n, w) && Walk(g, w, m, len - 1);
        assert Reach(g, w, m);
        ReachTrans(g, w, m, n);
      }
    }
  }

  /** A published loop is the component of each of its members. */
  lemma LoopOfMember(g: Graph, loops: seq<Loop>, i: nat, n: Id)
    requires Publishes(g, g.Keys, loops) && i < |loops| && n in loops[i].members
    ensures n in g && loops[i].members == Component(g, n) && Cyclic(g, Component(g, n))
  {
    var r: Id :| r in g && loops[i].members == Component(g, r);
    ComponentsAgree(g, r, n);
  }

  /** An instruction is in a published loop exactly when control can leave it and come back. */
  lemma LoopsAreCycles(g: Graph, loops: seq<Loop>, n: Id)
    requires Closed(g) && n in g && Publishes(g, g.Keys, loops)
    ensures InLoop(loops, n) <==> OnCycle(g, n)
  {
    CyclicMeansOnCycle(g, n);
    if InLoop(loops, n) {
      var i :| 0 <= i < |loops| && n in loops[i].members;
      LoopOfMember(g, loops, i, n);
    }
    if OnCycle(g, n) {
      assert Listed(loops, Component(g, n));
      var i :| 0 <= i < |loops| && loops[i].members == Component(g, n);
      ReachSelf(g, n);
      assert n in loops[i].members;
    }
  }

  /** Two looping instructions share their loop exactly when each can reach the other. */
  lemma SameLoopIsMutual(g: Graph, loops: seq<Loop>, loopOf: map<Id, nat>, m: Id, n: Id)
    requires Closed(g) && Publishes(g, g.Keys, loops) && Indexes(loops, loopOf)
    requires m in loopOf && n in loopOf
    ensures loopOf[m] == loopOf[n] <==> Mutual(g, m, n)
  {
    LoopOfMember(g, loops, loopOf[m], m);
    LoopOfMember(g, loops, loopOf[n], n);
    if loopOf[m] == loopOf[n] {
      assert n in Component(g, m);
    }
    if Mutual(g, m, n) {
      assert n in loops[loopOf[m]].members && n in loops[loopOf[n]].members;
    }
  }
}
