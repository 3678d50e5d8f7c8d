/** Two more walks of the analyser: the bounded ancestry walk behind a data
    transfer, and the closure of a routine's callees. */
module Provenance {
  import opened Graphs
  import opened Wrappers

  const MAX_PATH: nat := 64

  /** The dependency one step back, if its supplier is known. */
  type Ancestry = map<Id, Id>

  /** The `n`-th ancestor of `id`. */
  function Ancestor(ancestry: Ancestry, id: Id, n: nat): Option<Id>
    decreases n
  {
    if n == 0 then Some(id)
    else if id !in ancestry then None
    else Ancestor(ancestry, ancestry[id], n - 1)
  }

  lemma {:induction false} OneFurther(ancestry: Ancestry, id: Id, n: nat)
    ensures Ancestor(ancestry, id, n + 1) ==
              match Ancestor(ancestry, id, n)
              case None => None
              case Some(a) => if a in ancestry then Some(ancestry[a]) else None
    decreases n
  {
    if n > 0 && id in ancestry { OneFurther(ancestry, ancestry[id], n - 1); }
  }

  // ----- The ancestry walk -----

  ghost predicate Distinct(path: seq<Id>) {
    forall i, j :: 0 <= i < j < |path| ==> path[i] != path[j]
  }

  /** `path` is the start and its ancestors in order, each once. */
  ghost predicate Lineage(ancestry: Ancestry, start: Id, path: seq<Id>) {
    && Distinct(path)
    && forall i: nat :: i < |path| ==> Ancestor(ancestry, start, i) == Some(path[i])
  }

  /** `source` is the last member of the path that reads hardware. */
  ghost predicate LastHardware(hardware: set<Id>, path: seq<Id>, source: Option<Id>) {
    match source
    case None => forall i :: 0 <= i < |path| ==> path[i] !in hardware
    case Some(id) => exists i :: 0 <= i < |path| && path[i] == id && id in hardware && forall j :: i < j < |path| ==> path[j] !in hardware
  }

  lemma HardwareStep(hardware: set<Id>, path: seq<Id>, source: Option<Id>, next: Id)
    requires LastHardware(hardware, path, source)
    ensures LastHardware(hardware, path + [next], if next in hardware then Some(next) else source)
  {
    var path' := path + [next];
    if next in hardware {
      assert path'[|path|] == next;
    } else if source.Some? {
      var i :| 0 <= i < |path| && path[i] == source.value && source.value in hardware && forall j :: i < j < |path| ==> path[j] !in hardware;
      assert path'[i] == source.value;
    }
  }

  /** The walk follows ancestors until there is none, one repeats, or the path is
      full; `truncated` says that it is full and a new ancestor was still to come. */
  method Trace(ancestry: Ancestry, hardware: set<Id>, start: Id) returns (path: seq<Id>, source: Option<Id>, truncated: bool)
    ensures 0 < |path| <= 64 && Lineage(ancestry, start, path) && LastHardware(hardware, path, source)
    ensures var last := path[|path| - 1];
            && (truncated <==> |path| == 64 && last in ancestry && ancestry[last] !in path)
            && (!truncated ==> last !in ancestry || ancestry[last] in path)
  {
    path, source, truncated := [], None, false;
    var cur, seen := start, {};
    while cur !in seen
      invariant |path| <= MAX_PATH && Lineage(ancestry, start, path) && LastHardware(hardware, path, source) && !truncated
      invariant seen == set id | id in path
      invariant Ancestor(ancestry, start, |path|) == Some(cur)
      invariant path == [] ==> cur == start
      invariant path != [] ==> path[|path| - 1] in ancestry && ancestry[path[|path| - 1]] == cur
      decreases MAX_PATH - |path|
    {
      if |path| >= MAX_PATH { truncated := true; break; }
      seen := seen + {cur};
      HardwareStep(hardware, path, source, cur);
      OneFurther(ancestry, start, |path|);
      path := path + [cur];
      if cur in hardware { source := Some(cur); }
      if cur !in ancestry { break; }
      cur := ancestry[cur];
    }
  }

  lemma {:induction false} AllOnPath(ancestry: Ancestry, start: Id, path: seq<Id>, n: nat)
    requires path != [] && Lineage(ancestry, start, path)
    requires var last := path[|path| - 1]; last !in ancestry || ancestry[last] in path
    ensures Ancestor(ancestry, start, n).Some? ==> Ancestor(ancestry, start, n).value in path
    decreases n
  {
    if n > 0 {
      AllOnPath(ancestry, start, path, n - 1);
      OneFurther(ancestry, start, n - 1);
      if Ancestor(ancestry, start, n).Some? {
        var i: nat :| i < |path| && path[i] == Ancestor(ancestry, start, n - 1).value;
        if i < |path| - 1 {
          OneFurther(ancestry, start, i);
          assert path[i + 1] == ancestry[path[i]];
        }
      }
    } else {
      assert path[0] == start;
    }
  }

  predicate FromHardware(ancestry: Ancestry, hardware: set<Id>, start: Id, n: nat) {
    Ancestor(ancestry, start, n).Some? && Ancestor(ancestry, start, n).value in hardware
  }

  lemma SourceIsAncestor(ancestry: Ancestry, hardware: set<Id>, start: Id, path: seq<Id>, source: Option<Id>)
    requires Lineage(ancestry, start, path) && LastHardware(hardware, path, source)
    ensures source.Some? ==> exists n: nat :: FromHardware(ancestry, hardware, start, n)
    ensures source.None? ==> forall id: Id :: id in path ==> id !in hardware
  {
    if source.Some? {
      var i: nat :| i < |path| && path[i] == source.value && source.value in hardware;
      assert FromHardware(ancestry, hardware, start, i);
    }
  }

  /** A walk that was not truncated has met every ancestor, even around a cycle:
      it finds a hardware source exactly when some ancestor reads hardware. */
  lemma UntruncatedIsComplete(ancestry: Ancestry, hardware: set<Id>, start: Id, path: seq<Id>, source: Option<Id>)
    requires path != [] && Lineage(ancestry, start, path) && LastHardware(hardware, path, source)
    requires var last := path[|path| - 1]; last !in ancestry || ancestry[last] in path
    ensures forall n: nat :: Ancestor(ancestry, start, n).Some? ==> Ancestor(ancestry, start, n).value in path
    ensures source.Some? <==> exists n: nat :: FromHardware(ancestry, hardware, start, n)
  {
    forall n: nat ensures Ancestor(ancestry, start, n).Some? ==> Ancestor(ancestry, start, n).value in path {
      AllOnPath(ancestry, start, path, n);
    }
    hide LastHardware;
    SourceIsAncestor(ancestry, hardware, start, path, source);
  }

  // ----- Callees of callees -----

  function CalleesOf(calls: Graph, id: Id): set<Id> {
    if id in calls then calls[id] else {}
  }

  ghost predicate Called(calls: Graph, entry: Id, id: Id) {
    exists callee: Id :: Edge(calls, entry, callee) && Reach(calls, callee, id)
  }

  lemma CalledOn(calls: Graph, entry: Id, id: Id, next: Id)
    requires Called(calls, entry, id) && Edge(calls, id, next)
    ensures Called(calls, entry, next)
  {
    var callee: Id :| Edge(calls, entry, callee) && Reach(calls, callee, id);
    ReachEdge(calls, id, next);
    ReachTrans(calls, callee, id, next);
  }

  lemma CalledFirst(calls: Graph, entry: Id, id: Id)
    requires Edge(calls, entry, id)
    ensures Called(calls, entry, id)
  {
    ReachSelf(calls, id);
  }

  lemma ClosedCatchesAll(calls: Graph, entry: Id, reached: set<Id>, id: Id)
    requires forall n: Id :: Edge(calls, entry, n) ==> n in reached
    requires forall n: Id, next: Id :: n in reached && Edge(calls, n, next) ==> next in reached
    requires Called(calls, entry, id)
    ensures id in reached
  {
    var callee: Id :| Edge(calls, entry, callee) && Reach(calls, callee, id);
    var n: nat :| Walk(calls, callee, id, n);
    WalkStays(calls, reached, callee, id, n);
  }

  /** Every routine that some call names. */
  ghost function Named(calls: Graph): set<Id> {
    set n: Id, m: Id | n in calls && m in calls[n] :: m
  }

  /** All routines a routine can call, directly or through others. */
  method Callees(calls: Graph, entry: Id) returns (reached: set<Id>)
    ensures forall id: Id :: id in reached <==> Called(calls, entry, id)
  {
    reached := {};
    var todo := CalleesOf(calls, entry);
    hide Called;
    forall id: Id | id in todo ensures Called(calls, entry, id) {
      CalledFirst(calls, entry, id);
    }
    while todo != {}
      invariant todo <= Named(calls) && reached <= Named(calls)
      invariant forall id: Id :: id in reached || id in todo ==> Called(calls, entry, id)
      invariant forall id: Id :: Edge(calls, entry, id) ==> id in reached || id in todo
      invariant forall id: Id, next: Id :: id in reached && Edge(calls, id, next) ==> next in reached || next in todo
      decreases Named(calls) - reached, |todo|
    {
      var id: Id :| id in todo;
      ghost var before := todo;
      todo := todo - {id};
      if id !in reached {
        reached := reached + {id};
        forall next: Id | Edge(calls, id, next) ensures Called(calls, entry, next) && next in Named(calls) {
          CalledOn(calls, entry, id, next);
        }
        todo := todo + CalleesOf(calls, id);
      }
    }
    forall id: Id | Called(calls, entry, id) ensures id in reached {
      ClosedCatchesAll(calls, entry, reached, id);
    }
  }
}
