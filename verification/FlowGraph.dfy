/** How the analyser turns captured evidence into the ordinary control-flow
    graph, and the routine bodies it grows in it. */
module FlowGraph {
  import opened Graphs
  import opened Wrappers

  type Location = nat

  datatype Flow = Fallthrough | Jump | Call | Return | Halt | Stop

  datatype Instruction = Instruction(location: Location, flow: Flow)

  /** An observed edge: its destination is an instruction when the capture
      resolved it, and otherwise only a location. */
  datatype Evidence = Evidence(from: Id, toInstruction: Option<Id>, targetLocation: Location, fallthrough: bool)

  /** The project validator guarantees that evidence names captured instructions. */
  ghost predicate Validated(code: map<Id, Instruction>, edges: seq<Evidence>) {
    forall e :: e in edges ==> e.from in code && (e.toInstruction.Some? ==> e.toInstruction.value in code)
  }

  ghost predicate OnlyAt(code: map<Id, Instruction>, loc: Location, n: Id) {
    n in code && code[n].location == loc && forall m: Id :: m in code && code[m].location == loc ==> m == n
  }

  /** Where `e` leads: the named instruction, or the only one at the target location. */
  ghost predicate LeadsTo(code: map<Id, Instruction>, e: Evidence, n: Id) {
    match e.toInstruction
    case Some(to) => n == to
    case None => OnlyAt(code, e.targetLocation, n)
  }

  /** Returns, halts and taken calls do not continue inside the routine. */
  predicate Ordinary(flow: Flow, e: Evidence) {
    match flow
    case Return => e.fallthrough
    case Call => e.fallthrough
    case Halt => false
    case Stop => false
    case _ => true
  }

  ghost predicate Justified(code: map<Id, Instruction>, edges: seq<Evidence>, u: Id, v: Id) {
    exists e :: e in edges && e.from == u && u in code && Ordinary(code[u].flow, e) && LeadsTo(code, e, v)
  }

  /** The location index over the instructions in `done`: `at` names one
      instruction at each location, `ambiguous` holds the locations of several. */
  ghost predicate Indexed(code: map<Id, Instruction>, done: set<Id>, at: map<Location, Id>, ambiguous: set<Location>) {
    && done <= code.Keys
    && (forall n: Id :: n in done ==> code[n].location in at)
    && (forall loc: Location :: loc in at ==> at[loc] in done && code[at[loc]].location == loc)
    && (forall n: Id :: n in done && code[n].location !in ambiguous ==> at[code[n].location] == n)
    && (forall loc: Location :: loc in ambiguous ==> Shared(code, done, loc))
  }

  ghost predicate Shared(code: map<Id, Instruction>, done: set<Id>, loc: Location) {
    exists m: Id, n: Id :: m != n && m in done && n in done && m in code && n in code &&
      code[m].location == loc && code[n].location == loc
  }

  lemma SharedMore(code: map<Id, Instruction>, done: set<Id>, done': set<Id>, loc: Location)
    requires done <= done' && Shared(code, done, loc)
    ensures Shared(code, done', loc)
  {
  }

  lemma IndexedStep(code: map<Id, Instruction>, done: set<Id>, at: map<Location, Id>, ambiguous: set<Location>, n: Id)
    requires Indexed(code, done, at, ambiguous) && n in code && n !in done
    ensures var loc := code[n].location;
            Indexed(code, done + {n}, at[loc := n], if loc in at then ambiguous + {loc} else ambiguous)
  {
    var loc := code[n].location;
    forall l: Location | l in ambiguous
      ensures Shared(code, done + {n}, l)
    {
      SharedMore(code, done, done + {n}, l);
    }
    if loc in at {
      assert at[loc] != n;
      assert Shared(code, done + {n}, loc);
    }
  }

  method IndexLocations(code: map<Id, Instruction>) returns (at: map<Location, Id>, ambiguous: set<Location>)
    ensures Indexed(code, code.Keys, at, ambiguous)
  {
    at, ambiguous := map[], {};
    var rest := code.Keys;
    while rest != {}
      invariant rest <= code.Keys && Indexed(code, code.Keys - rest, at, ambiguous)
    {
      var n :| n in rest;
      IndexedStep(code, code.Keys - rest, at, ambiguous, n);
      assert code.Keys - (rest - {n}) == (code.Keys - rest) + {n};
      rest := rest - {n};
      if code[n].location in at {
        ambiguous := ambiguous + {code[n].location};
      }
      at := at[code[n].location := n];
    }
    assert code.Keys - rest == code.Keys;
  }

  function Destination(code: map<Id, Instruction>, at: map<Location, Id>, ambiguous: set<Location>, e: Evidence): (to: Option<Id>)
    requires Indexed(code, code.Keys, at, ambiguous)
    ensures forall v: Id :: LeadsTo(code, e, v) <==> to == Some(v)
  {
    if e.toInstruction.Some? then e.toInstruction
    else if e.targetLocation in at && e.targetLocation !in ambiguous then Some(at[e.targetLocation])
    else None
  }

  /** Both graphs gain the edge. */
  method AddEdge(graph: Graph, reverse: Graph, u: Id, v: Id) returns (graph': Graph, reverse': Graph)
    requires Closed(graph) && Transposed(graph, reverse) && u in graph && v in graph
    ensures graph'.Keys == graph.Keys && Closed(graph') && Transposed(graph', reverse')
    ensures forall a: Id, b: Id :: Edge(graph', a, b) <==> Edge(graph, a, b) || (a == u && b == v)
  {
    graph' := graph[u := graph[u] + {v}];
    reverse' := reverse[v := reverse[v] + {u}];
    assert forall a: Id, b: Id :: Edge(reverse', a, b) <==> Edge(reverse, a, b) || (a == v && b == u);
  }

  /** `graph` holds exactly the edges that `edges` justify, `reverse` their reversals. */
  ghost predicate Reflects(code: map<Id, Instruction>, edges: seq<Evidence>, graph: Graph, reverse: Graph) {
    && graph.Keys == code.Keys && Closed(graph) && Transposed(graph, reverse)
    && forall u: Id, v: Id :: Edge(graph, u, v) <==> Justified(code, edges, u, v)
  }

  method AddEvidence(code: map<Id, Instruction>, edges: seq<Evidence>, i: nat, at: map<Location, Id>, ambiguous: set<Location>,
                     graph: Graph, reverse: Graph)
    returns (graph': Graph, reverse': Graph)
    requires Validated(code, edges) && i < |edges| && Indexed(code, code.Keys, at, ambiguous)
    requires Reflects(code, edges[..i], graph, reverse)
    ensures Reflects(code, edges[..i + 1], graph', reverse')
  {
    graph', reverse' := graph, reverse;
    var e := edges[i];
    assert e in edges;
    JustifiedMore(code, edges, i);
    var to := Destination(code, at, ambiguous, e);
    if to.Some? {
      assert LeadsTo(code, e, to.value);
      if Ordinary(code[e.from].flow, e) {
        graph', reverse' := AddEdge(graph, reverse, e.from, to.value);
      }
    }
  }

  /** Builds the graph and, beside every edge, its reversal. */
  method BuildGraph(code: map<Id, Instruction>, edges: seq<Evidence>) returns (graph: Graph, reverse: Graph)
    requires Validated(code, edges)
    ensures Reflects(code, edges, graph, reverse)
  {
    graph := map n | n in code.Keys :: {};
    reverse := map n | n in code.Keys :: {};
    var at, ambiguous := IndexLocations(code);
    for i := 0 to |edges|
      invariant Reflects(code, edges[..i], graph, reverse)
    {
      graph, reverse := AddEvidence(code, edges, i, at, ambiguous, graph, reverse);
    }
    assert edges[..|edges|] == edges;
  }

  /** Some evidence, of a fallthrough if so asked, leads from `u` to `v`. */
  ghost predicate Led(code: map<Id, Instruction>, edges: seq<Evidence>, u: Id, v: Id, fallthrough: bool) {
    exists e :: e in edges && e.from == u && LeadsTo(code, e, v) && (fallthrough ==> e.fallthrough)
  }

  /** What follows an instruction in the graph, by its flow: nothing after a halt or a
      stop, only fallthroughs after a call or a return, and otherwise all the evidence. */
  lemma SuccessorsByFlow(code: map<Id, Instruction>, edges: seq<Evidence>, graph: Graph, reverse: Graph, u: Id)
    requires Validated(code, edges) && Reflects(code, edges, graph, reverse) && u in code
    ensures code[u].flow == Halt || code[u].flow == Stop ==> graph[u] == {}
    ensures code[u].flow == Call || code[u].flow == Return ==>
              forall v: Id :: v in graph[u] <==> Led(code, edges, u, v, true)
    ensures code[u].flow == Fallthrough || code[u].flow == Jump ==>
              forall v: Id :: v in graph[u] <==> Led(code, edges, u, v, false)
  {
    assert forall v: Id :: v in graph[u] <==> Edge(graph, u, v);
  }

  lemma JustifiedMore(code: map<Id, Instruction>, edges: seq<Evidence>, i: nat)
    requires i < |edges|
    ensures forall u: Id, v: Id :: Justified(code, edges[..i + 1], u, v) <==>
              || Justified(code, edges[..i], u, v)
              || (edges[i].from == u && u in code && Ordinary(code[u].flow, edges[i]) && LeadsTo(code, edges[i], v))
  {
    assert edges[..i + 1] == edges[..i] + [edges[i]];
  }

  // ----- Routine bodies -----

  /** The edges a routine body follows: none of them enters another routine. */
  ghost function Inner(g: Graph, entries: set<Id>, entry: Id): Graph {
    map n | n in g :: set m | m in g[n] && (m !in entries || m == entry)
  }

  ghost function Body(g: Graph, entries: set<Id>, entry: Id): set<Id> {
    set n | n in g && Reach(Inner(g, entries, entry), entry, n)
  }

  method RoutineBody(g: Graph, entries: set<Id>, entry: Id) returns (members: set<Id>)
    requires Closed(g) && entry in g && entry in entries
    ensures members == Body(g, entries, entry)
  {
    members := {};
    var todo := [entry];
    ghost var inner := Inner(g, entries, entry);
    ReachSelf(inner, entry);
    while todo != []
      invariant members <= g.Keys && (entry in members || entry in todo)
      invariant forall n: Id :: n in members || n in todo ==> n in g && Reach(inner, entry, n)
      invariant forall m: Id, n: Id :: m in members && Edge(inner, m, n) ==> n in members || n in todo
      decreases g.Keys - members, |todo|
    {
      var id := todo[|todo| - 1];
      assert todo == todo[..|todo| - 1] + [id];
      ghost var before := todo;
      todo := todo[..|todo| - 1];
      if id in members { continue; }
      members := members + {id};
      var rest := g[id];
      while rest != {}
        invariant rest <= g[id] && before[..|before| - 1] <= todo
        invariant forall n: Id :: n in todo ==> n in g && Reach(inner, entry, n)
        invariant forall n: Id :: n in before ==> n in todo || n == id
        invariant forall n: Id :: Edge(inner, id, n) ==> n in todo || n in rest
      {
        var n :| n in rest;
        rest := rest - {n};
        if n !in entries || n == entry {
          ReachEdge(inner, id, n);
          ReachTrans(inner, entry, id, n);
          todo := todo + [n];
        }
      }
    }
    forall n: Id | Reach(inner, entry, n)
      ensures n in members
    {
      var len: nat :| Walk(inner, entry, n, len);
      WalkStays(inner, members, entry, n, len);
    }
  }

  /** A walk through the whole graph ends in the body of the last entry it meets. */
  lemma {:induction false} LastEntry(g: Graph, entries: set<Id>, entry: Id, u: Id, n: Id, len: nat) returns (last: Id)
    requires Closed(g) && entry in entries && entries <= g.Keys
    requires u in Body(g, entries, entry) && Walk(g, u, n, len)
    ensures last in entries && n in Body(g, entries, last)
    decreases len
  {
    if len == 0 { return entry; }
    var w: Id :| Edge(g, u, w) && Walk(g, w, n, len - 1);
    var inner := Inner(g, entries, entry);
    if w in entries && w != entry {
      ReachSelf(Inner(g, entries, w), w);
      last := LastEntry(g, entries, w, w, n, len - 1);
    } else {
      ReachEdge(inner, u, w);
      ReachTrans(inner, entry, u, w);
      last := LastEntry(g, entries, entry, w, n, len - 1);
    }
  }

  lemma {:induction false} InnerWalk(g: Graph, entries: set<Id>, entry: Id, u: Id, n: Id, len: nat)
    requires Walk(Inner(g, entries, entry), u, n, len)
    ensures Walk(g, u, n, len)
    decreases len
  {
    if len > 0 {
      var inner := Inner(g, entries, entry);
      var w: Id :| Edge(inner, u, w) && Walk(inner, w, n, len - 1);
      InnerWalk(g, entries, entry, w, n, len - 1);
      assert Edge(g, u, w);
    }
  }

  /** Together the bodies are exactly the code some entry can reach: cutting
      them at each other's entries loses nothing and adds nothing. */
  lemma BodiesCoverReachableCode(g: Graph, entries: set<Id>, n: Id)
    requires Closed(g) && entries <= g.Keys
    ensures (exists e: Id :: e in entries && n in Body(g, entries, e)) <==>
            (exists e: Id :: e in entries && Reach(g, e, n))
  {
    if e: Id :| e in entries && n in Body(g, entries, e) {
      var inner := Inner(g, entries, e);
      var len: nat :| Walk(inner, e, n, len);
      InnerWalk(g, entries, e, e, n, len);
      assert Reach(g, e, n);
    }
    if e: Id :| e in entries && Reach(g, e, n) {
      var len: nat :| Walk(g, e, n, len);
      ReachSelf(Inner(g, entries, e), e);
      var last := LastEntry(g, entries, e, e, n, len);
    }
  }

  /** A body contains its own entry and no other. */
  lemma BodyHasOneEntry(g: Graph, entries: set<Id>, entry: Id, n: Id)
    requires Closed(g) && entry in g && entry in entries
    ensures n in Body(g, entries, entry) && n in entries <==> n == entry
  {
    var inner := Inner(g, entries, entry);
    ReachSelf(inner, entry);
    if n in Body(g, entries, entry) && n in entries {
      var len: nat :| Walk(inner, entry, n, len);
      var own := set m | m in g && (m !in entries || m == entry);
      WalkStays(inner, own, entry, n, len);
    }
  }

  /** A body can only be left over an edge into another routine's entry: the
      edges the analyser reports as boundary conflicts are all there are. */
  lemma BodyExitsAreConflicts(g: Graph, entries: set<Id>, entry: Id, u: Id, v: Id)
    requires Closed(g) && entry in g && entry in entries
    requires u in Body(g, entries, entry) && Edge(g, u, v)
    ensures v !in Body(g, entries, entry) <==> v in entries && v != entry
  {
    var inner := Inner(g, entries, entry);
    BodyHasOneEntry(g, entries, entry, v);
    if v !in entries || v == entry {
      ReachEdge(inner, u, v);
      ReachTrans(inner, entry, u, v);
    }
  }
}
