/** The analyser's path from captured evidence to published cycles. */
module ControlFlow {
  import opened Graphs
  import opened FlowGraph
  import opened LoopAnalysis

  /** Builds the graph of a capture and publishes its structural cycles. */
  method StructuralCycles(code: map<Id, Instruction>, edges: seq<Evidence>)
    returns (graph: Graph, loops: seq<Loop>, loopOf: map<Id, nat>)
    requires Validated(code, edges)
    ensures graph.Keys == code.Keys && forall u: Id, v: Id :: Edge(graph, u, v) <==> Justified(code, edges, u, v)
    ensures forall n: Id :: n in code ==> (InLoop(loops, n) <==> OnCycle(graph, n))
    ensures forall m: Id, n: Id :: m in loopOf && n in loopOf ==> (loopOf[m] == loopOf[n] <==> Mutual(graph, m, n))
    ensures Publishes(graph, graph.Keys, loops) && Indexes(loops, loopOf)
  {
    var reverse;
    graph, reverse := BuildGraph(code, edges);
    loops, loopOf := FindLoops(graph, reverse);
    hide Publishes, Indexes, OnCycle, InLoop, Mutual;
    forall n: Id | n in code ensures InLoop(loops, n) <==> OnCycle(graph, n) {
      LoopsAreCycles(graph, loops, n);
    }
    forall m: Id, n: Id | m in loopOf && n in loopOf ensures loopOf[m] == loopOf[n] <==> Mutual(graph, m, n) {
      SameLoopIsMutual(graph, loops, loopOf, m, n);
    }
  }
}
