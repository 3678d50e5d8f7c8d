/** Finite directed graphs, as the analyser builds them over instruction IDs.
    Only equality of IDs matters, so an ID is a number. */
module Graphs {

  type Id = nat
  type Graph = map<Id, set<Id>>

  /** Every edge ends in a node of the graph. */
  ghost predicate Closed(g: Graph) {
    forall n: Id, m: Id :: n in g && m in g[n] ==> m in g
  }

  predicate Edge(g: Graph, u: Id, v: Id) {
    u in g && v in g[u]
  }

  /** `t` has the edges of `g`, each the other way round. */
  ghost predicate Transposed(g: Graph, t: Graph) {
    && t.Keys == g.Keys && Closed(t)
    && forall u: Id, v: Id :: u in g && v in g ==> (Edge(g, u, v) <==> Edge(t, v, u))
  }

  /** There is a walk of exactly `n` edges from `u` to `v`. */
  ghost predicate Walk(g: Graph, u: Id, v: Id, n: nat)
    decreases n
  {
    if n == 0 then u == v
    else exists w: Id :: Edge(g, u, w) && Walk(g, w, v, n - 1)
  }

  ghost predicate Reach(g: Graph, u: Id, v: Id) {
    exists n: nat :: Walk(g, u, v, n)
  }

  ghost predicate Mutual(g: Graph, u: Id, v: Id) {
    Reach(g, u, v) && Reach(g, v, u)
  }

  /** The strongly connected component of `r`. */
  ghost function Component(g: Graph, r: Id): set<Id> {
    set n | n in g && Mutual(g, r, n)
  }

  /** The part of the graph whose nodes lie in `s`. */
  ghost function Within(g: Graph, s: set<Id>): Graph {
    map n | n in g && n in s :: g[n] * s
  }

  lemma {:induction false} WalkAppend(g: Graph, u: Id, v: Id, w: Id, n: nat, m: nat)
    requires Walk(g, u, v, n) && Walk(g, v, w, m)
    ensures Walk(g, u, w, n + m)
    decreases n
  {
    if n > 0 {
      var x: Id :| Edge(g, u, x) && Walk(g, x, v, n - 1);
      WalkAppend(g, x, v, w, n - 1, m);
    }
  }

  lemma ReachSelf(g: Graph, u: Id)
    ensures Reach(g, u, u)
  {
    assert Walk(g, u, u, 0);
  }

  lemma ReachEdge(g: Graph, u: Id, v: Id)
    requires Edge(g, u, v)
    ensures Walk(g, u, v, 1) && Reach(g, u, v)
  {
    assert Walk(g, v, v, 0);
    assert Walk(g, u, v, 1);
  }

  lemma ReachTrans(g: Graph, u: Id, v: Id, w: Id)
    requires Reach(g, u, v) && Reach(g, v, w)
    ensures Reach(g, u, w)
  {
    var n: nat :| Walk(g, u, v, n);
    var m: nat :| Walk(g, v, w, m);
    WalkAppend(g, u, v, w, n, m);
  }

  /** A set that edges cannot leave is a set that walks cannot leave. */
  lemma {:induction false} WalkStays(g: Graph, s: set<Id>, u: Id, v: Id, n: nat)
    requires Walk(g, u, v, n) && u in s
    requires forall a: Id, b: Id :: a in s && Edge(g, a, b) ==> b in s
    ensures v in s
    decreases n
  {
    if n > 0 {
      var x: Id :| Edge(g, u, x) && Walk(g, x, v, n - 1);
      WalkStays(g, s, x, v, n - 1);
    }
  }

  lemma {:induction false} WalkWithin(g: Graph, s: set<Id>, u: Id, v: Id, n: nat)
    requires Walk(Within(g, s), u, v, n)
    ensures Walk(g, u, v, n)
    decreases n
  {
    if n > 0 {
      var x: Id :| Edge(Within(g, s), u, x) && Walk(Within(g, s), x, v, n - 1);
      WalkWithin(g, s, x, v, n - 1);
      assert Edge(g, u, x);
    }
  }

  /** Components are equivalence classes. */
  lemma ComponentsAgree(g: Graph, r: Id, n: Id)
    requires r in g && n in Component(g, r)
    ensures Component(g, n) == Component(g, r) && r in Component(g, r)
  {
    ReachSelf(g, r);
    forall x | x in g
      ensures x in Component(g, n) <==> x in Component(g, r)
    {
      if Mutual(g, n, x) {
        ReachTrans(g, r, n, x);
        ReachTrans(g, x, n, r);
      }
      if Mutual(g, r, x) {
        ReachTrans(g, n, r, x);
        ReachTrans(g, x, r, n);
      }
    }
  }
}
