/** Finite directed graphs of modules, and reachability by import paths of any length. */
module Graphs {

  type Module = string

  /** Every module with the modules it imports. */
  type Graph = map<Module, set<Module>>

  predicate HasEdge(g: Graph, u: Module, v: Module) {
    u in g && v in g[u]
  }

  /** Every imported module is itself a vertex. */
  ghost predicate IsGraph(g: Graph) {
    forall u, v :: HasEdge(g, u, v) ==> v in g
  }

  ghost predicate ReachIn(g: Graph, u: Module, v: Module, n: nat)
    decreases n
  {
    if n == 0 then u == v
    else exists w :: HasEdge(g, u, w) && ReachIn(g, w, v, n - 1)
  }

  /** Some path of zero or more edges leads from u to v. */
  ghost predicate Reach(g: Graph, u: Module, v: Module) {
    exists n: nat :: ReachIn(g, u, v, n)
  }

  ghost predicate Mutual(g: Graph, u: Module, v: Module) {
    Reach(g, u, v) && Reach(g, v, u)
  }

  /** c is a strongly connected component: all of one class of mutual reachability. */
  ghost predicate IsScc(g: Graph, c: set<Module>) {
    && c != {}
    && (forall x, y :: x in c ==> (y in c <==> Mutual(g, x, y)))
  }

  ghost predicate EdgeClosed(g: Graph, s: set<Module>) {
    forall u, v :: u in s && HasEdge(g, u, v) ==> v in s
  }

  lemma ReachRefl(g: Graph, u: Module)
    ensures Reach(g, u, u)
  {
    assert ReachIn(g, u, u, 0);
  }

  lemma ReachStep(g: Graph, u: Module, v: Module, w: Module)
    requires HasEdge(g, u, v) && Reach(g, v, w)
    ensures Reach(g, u, w)
  {
    var n: nat :| ReachIn(g, v, w, n);
    assert ReachIn(g, u, w, n + 1);
  }

  lemma ReachEdge(g: Graph, u: Module, v: Module)
    requires HasEdge(g, u, v)
    ensures Reach(g, u, v)
  {
    ReachRefl(g, v);
    ReachStep(g, u, v, v);
  }

  lemma {:induction false} ReachTransIn(g: Graph, u: Module, v: Module, w: Module, n: nat)
    requires ReachIn(g, u, v, n) && Reach(g, v, w)
    ensures Reach(g, u, w)
    decreases n
  {
    if n != 0 {
      var x :| HasEdge(g, u, x) && ReachIn(g, x, v, n - 1);
      ReachTransIn(g, x, v, w, n - 1);
      ReachStep(g, u, x, w);
    }
  }

  lemma ReachTrans(g: Graph, u: Module, v: Module, w: Module)
    requires Reach(g, u, v) && Reach(g, v, w)
    ensures Reach(g, u, w)
  {
    var n: nat :| ReachIn(g, u, v, n);
    ReachTransIn(g, u, v, w, n);
  }

  lemma {:induction false} ClosedIn(g: Graph, s: set<Module>, u: Module, v: Module, n: nat)
    requires EdgeClosed(g, s) && u in s && ReachIn(g, u, v, n)
    ensures v in s
    decreases n
  {
    if n != 0 {
      var x :| HasEdge(g, u, x) && ReachIn(g, x, v, n - 1);
      ClosedIn(g, s, x, v, n - 1);
    }
  }

  /** No path leaves a set that no edge leaves. */
  lemma ClosedReach(g: Graph, s: set<Module>, u: Module, v: Module)
    requires EdgeClosed(g, s) && u in s && Reach(g, u, v)
    ensures v in s
  {
    var n: nat :| ReachIn(g, u, v, n);
    ClosedIn(g, s, u, v, n);
  }

  lemma ReachInGraph(g: Graph, u: Module, v: Module)
    requires IsGraph(g) && u in g && Reach(g, u, v)
    ensures v in g
  {
    ClosedReach(g, g.Keys, u, v);
  }
}
