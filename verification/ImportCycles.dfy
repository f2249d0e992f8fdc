/** The cycle half of the import checker: strong components of the module graph, the edges on
    cycles, and the certificate that the excepted edges are exactly what keeps it cyclic. */
module ImportCycles {
  import opened Graphs
  import Tarjan

  datatype ImportEdge = ImportEdge(importer: Module, importerPath: string, imported: Module, symbols: seq<string>)

  /** What a cycle exception names. */
  datatype EdgeKey = EdgeKey(importer: Module, importerPath: string, imported: Module, symbols: seq<string>)

  datatype CycleError = StaleException(key: EdgeKey) | UnownedCycle(component: set<Module>)

  function KeyOf(e: ImportEdge): EdgeKey {
    EdgeKey(e.importer, e.importerPath, e.imported, e.symbols)
  }

  /** Every edge into a source module comes from a source module. */
  ghost predicate Known(modules: set<Module>, edges: seq<ImportEdge>) {
    forall e :: e in edges && e.imported in modules ==> e.importer in modules
  }

  ghost function GraphOf(modules: set<Module>, edges: seq<ImportEdge>): Graph {
    map m | m in modules :: ImportsOf(modules, edges, m)
  }

  ghost function ImportsOf(modules: set<Module>, edges: seq<ImportEdge>, m: Module): set<Module> {
    set e | e in edges && e.importer == m && e.imported in modules :: e.imported
  }

  lemma GraphOfEdges(modules: set<Module>, edges: seq<ImportEdge>)
    ensures IsGraph(GraphOf(modules, edges))
    ensures forall e :: e in edges && e.importer in modules && e.imported in modules ==>
      HasEdge(GraphOf(modules, edges), e.importer, e.imported)
    ensures forall u, v :: HasEdge(GraphOf(modules, edges), u, v) ==>
      exists e :: e in edges && e.importer == u && e.imported == v
  {}

  method Adjacency(modules: set<Module>, edges: seq<ImportEdge>) returns (g: Graph)
    requires Known(modules, edges)
    ensures g == GraphOf(modules, edges)
  {
    g := map m | m in modules :: {};
    assert forall m :: ImportsOf(modules, [], m) == {};
    for i := 0 to |edges|
      invariant g == GraphOf(modules, edges[..i])
    {
      var e := edges[i];
      assert edges[..i + 1] == edges[..i] + [e];
      GraphOfAppend(modules, edges[..i], e);
      if e.imported in modules {
        g := g[e.importer := g[e.importer] + {e.imported}];
      }
    }
    assert edges[..|edges|] == edges;
  }

  lemma GraphOfAppend(modules: set<Module>, edges: seq<ImportEdge>, e: ImportEdge)
    ensures e.imported !in modules ==> GraphOf(modules, edges + [e]) == GraphOf(modules, edges)
    ensures e.imported in modules && e.importer in modules ==>
      GraphOf(modules, edges + [e]) ==
      GraphOf(modules, edges)[e.importer := GraphOf(modules, edges)[e.importer] + {e.imported}]
  {
    forall m {
      ImportsOfAppend(modules, edges, e, m);
    }
    var g, g' := GraphOf(modules, edges), GraphOf(modules, edges + [e]);
    if e.imported in modules && e.importer in modules {
      assert g' == g[e.importer := g[e.importer] + {e.imported}];
    } else if e.imported !in modules {
      assert g' == g;
    }
  }

  lemma ImportsOfAppend(modules: set<Module>, edges: seq<ImportEdge>, e: ImportEdge, m: Module)
    ensures e.importer == m && e.imported in modules ==>
      ImportsOf(modules, edges + [e], m) == ImportsOf(modules, edges, m) + {e.imported}
    ensures !(e.importer == m && e.imported in modules) ==>
      ImportsOf(modules, edges + [e], m) == ImportsOf(modules, edges, m)
  {
    forall v | v in ImportsOf(modules, edges, m) ensures v in ImportsOf(modules, edges + [e], m) {
      var f :| f in edges && f.importer == m && f.imported in modules && f.imported == v;
      assert f in edges + [e];
    }
    assert e in edges + [e];
  }

  /** A component that is a real cycle: several modules, or one that imports itself. */
  ghost predicate IsCycle(g: Graph, c: set<Module>) {
    IsScc(g, c) && c <= g.Keys && (|c| > 1 || exists x :: x in c && HasEdge(g, x, x))
  }

  ghost predicate NoReach(g: Graph, a: set<Module>, b: set<Module>) {
    forall x, y :: x in a && y in b ==> !Reach(g, x, y)
  }

  /** Components in an order in which none reaches a later one. */
  ghost predicate Ordered(g: Graph, cs: seq<set<Module>>) {
    forall i, j :: 0 <= i < j < |cs| ==> NoReach(g, cs[i], cs[j])
  }

  /** The cyclic components of the import graph, each listed after those it reaches. */
  method StrongComponents(modules: set<Module>, edges: seq<ImportEdge>) returns (result: seq<set<Module>>)
    requires Known(modules, edges)
    ensures forall c :: c in result <==> IsCycle(GraphOf(modules, edges), c)
    ensures Ordered(GraphOf(modules, edges), result)
    ensures forall i, j :: 0 <= i < j < |result| ==> result[i] !! result[j]
  {
    var g := Adjacency(modules, edges);
    var components := AllComponents(g, modules, edges);
    result := [];
    for k := 0 to |components|
      invariant forall c :: c in result <==> c in components[..k] && IsCycle(g, c)
      invariant Ordered(g, result)
      invariant forall i, j :: 0 <= i < |result| && k <= j < |components| ==> NoReach(g, result[i], components[j])
    {
      var keep := Keeps(g, modules, edges, components[k]);
      if keep {
        result := result + [components[k]];
      }
      assert components[..k + 1] == components[..k] + [components[k]];
    }
    assert components[..|components|] == components;
    forall i, j | 0 <= i < j < |result| ensures result[i] !! result[j] {
      assert NoReach(g, result[i], result[j]);
      forall x | x in result[i] ensures x !in result[j] { ReachRefl(g, x); }
    }
  }

  /** The filter on popped components: more than one member, or a self-import of the only one. */
  method Keeps(ghost g: Graph, modules: set<Module>, edges: seq<ImportEdge>, c: set<Module>) returns (keep: bool)
    requires g == GraphOf(modules, edges) && IsScc(g, c) && c <= modules
    ensures keep <==> IsCycle(g, c)
  {
    if |c| > 1 {
      return true;
    }
    var x :| x in c;
    assert |c - {x}| == 0;
    assert c == {x};
    keep := exists e :: e in edges && e.importer == x && e.imported == x;
    GraphOfEdges(modules, edges);
  }

  method AllComponents(g: Graph, modules: set<Module>, ghost edges: seq<ImportEdge>) returns (components: seq<set<Module>>)
    requires g == GraphOf(modules, edges)
    ensures forall c :: c in components <==> IsScc(g, c) && c <= modules
    ensures Ordered(g, components)
  {
    GraphOfEdges(modules, edges);
    var search := new Tarjan.Search(g);
    StartInv(g);
    var remaining := modules;
    while remaining != {}
      invariant remaining <= modules && search.g == g && search.Consistent()
      invariant Tarjan.Inv(g, {}, search.At())
      invariant modules - remaining <= search.indices.Keys
      decreases remaining
    {
      var m :| m in remaining;
      if m !in search.indices {
        search.Visit(m, {});
      }
      remaining := remaining - {m};
    }
    components := search.components;
    Complete(g, search.At());
  }

  lemma StartInv(g: Graph)
    ensures Tarjan.Inv(g, {}, Tarjan.Progress(map[], [], []))
  {}

  /** When every module is discovered and no visit is open, the popped sets are all components. */
  lemma Complete(g: Graph, p: Tarjan.Progress)
    requires IsGraph(g) && Tarjan.Inv(g, {}, p) && p.indices.Keys == g.Keys
    ensures forall c :: c in p.components <==> IsScc(g, c) && c <= g.Keys
    ensures Ordered(g, p.components)
  {
    hide Tarjan.Stacked, Tarjan.Explored, Tarjan.Upward, Reach, EdgeClosed;
    assert p.stack != [] ==> p.stack[0] in p.stack && Tarjan.IsGrounded(g, {}, p, p.stack[0]);
    forall c | c in p.components ensures IsScc(g, c) && c <= g.Keys {
      var i :| 0 <= i < |p.components| && p.components[i] == c;
      forall x | x in c ensures x in Tarjan.Popped(p.components) {}
    }
    EveryClassPopped(g, p.components);
    OrderedFrom(g, p.components);
  }

  lemma EveryClassPopped(g: Graph, components: seq<set<Module>>)
    requires forall x :: x in g ==> x in Tarjan.Popped(components)
    requires forall i :: 0 <= i < |components| ==> IsScc(g, components[i])
    ensures forall c :: IsScc(g, c) && c <= g.Keys ==> c in components
  {
    hide Reach, Mutual;
    forall c | IsScc(g, c) && c <= g.Keys ensures c in components {
      var x :| x in c;
      var i :| 0 <= i < |components| && x in components[i];
      SameClass(g, c, components[i], x);
    }
  }

  lemma SameClass(g: Graph, a: set<Module>, b: set<Module>, x: Module)
    requires IsScc(g, a) && IsScc(g, b) && x in a && x in b
    ensures a == b
  {
    forall y ensures y in a <==> y in b {
      assert y in a <==> Mutual(g, x, y);
    }
  }

  lemma OrderedFrom(g: Graph, cs: seq<set<Module>>)
    requires Tarjan.Finished(g, cs)
    ensures Ordered(g, cs)
  {
    forall i, j, x, y | 0 <= i < j < |cs| && x in cs[i] && y in cs[j] ensures !Reach(g, x, y) {
      var first := cs[..i + 1];
      assert first[i] == cs[i];
      PoppedGrows(cs, i + 1, j);
      if Reach(g, x, y) {
        ClosedReach(g, Tarjan.Popped(first), x, y);
      }
    }
  }

  lemma PoppedGrows(cs: seq<set<Module>>, i: nat, j: nat)
    requires i <= j <= |cs|
    ensures Tarjan.Popped(cs[..i]) <= Tarjan.Popped(cs[..j])
  {
    forall y | y in Tarjan.Popped(cs[..i]) ensures y in Tarjan.Popped(cs[..j]) {
      var k :| 0 <= k < i && y in cs[..i][k];
      assert y in cs[..j][k];
    }
  }

  // ----- edges on cycles -----

  /** The edge's target leads back to its source. */
  ghost predicate OnCycle(g: Graph, e: ImportEdge) {
    e.importer in g && Reach(g, e.imported, e.importer)
  }

  ghost function CyclicOf(g: Graph, edges: seq<ImportEdge>): seq<ImportEdge> {
    if edges == [] then []
    else
      var last := edges[|edges| - 1];
      CyclicOf(g, edges[..|edges| - 1]) + (if OnCycle(g, last) then [last] else [])
  }

  /** Module -> position of its component, as the checker indexes them. */
  method IndexComponents(components: seq<set<Module>>) returns (position: map<Module, nat>)
    requires forall i, j :: 0 <= i < j < |components| ==> components[i] !! components[j]
    ensures forall m, i :: 0 <= i < |components| ==> (m in components[i] <==> m in position && position[m] == i)
    ensures forall m :: m in position ==> position[m] < |components|
  {
    position := map[];
    for k := 0 to |components|
      invariant forall m, i :: 0 <= i < k ==> (m in components[i] <==> m in position && position[m] == i)
      invariant forall m :: m in position ==> position[m] < k
    {
      var here := map m | m in components[k] :: k;
      position := position + here;
    }
  }

  /** Two modules joined by an edge share a listed component exactly when the edge is on a cycle. */
  lemma SharedComponent(g: Graph, components: seq<set<Module>>, e: ImportEdge)
    requires IsGraph(g) && e.importer in g
    requires e.imported in g ==> HasEdge(g, e.importer, e.imported)
    requires forall c :: c in components <==> IsCycle(g, c)
    ensures OnCycle(g, e) <==> exists i :: 0 <= i < |components| && e.importer in components[i] && e.imported in components[i]
  {
    var u, v := e.importer, e.imported;
    if i :| 0 <= i < |components| && u in components[i] && v in components[i] {
      assert components[i] in components;
      assert Mutual(g, u, v);
    }
    if OnCycle(g, e) {
      if v !in g {
        LeavesNothing(g, v, u);
      } else {
        ReachEdge(g, u, v);
        var c := ClassOf(g, u);
        ClassIsScc(g, u);
        ReachRefl(g, u);
        assert u in c && v in c;
        if u != v { PairInside(c, u, v); }
        assert IsCycle(g, c);
      }
    }
  }

  lemma PairInside(c: set<Module>, u: Module, v: Module)
    requires u in c && v in c && u != v
    ensures |c| > 1
  {
    assert {u, v} <= c;
    assert |c - {u, v}| + |{u, v}| == |c|;
  }

  lemma LeavesNothing(g: Graph, v: Module, u: Module)
    requires v !in g && Reach(g, v, u)
    ensures v == u
  {
    var n: nat :| ReachIn(g, v, u, n);
  }

  ghost function ClassOf(g: Graph, u: Module): set<Module> {
    set v | v in g && Mutual(g, u, v)
  }

  lemma ClassIsScc(g: Graph, u: Module)
    requires IsGraph(g) && u in g
    ensures IsScc(g, ClassOf(g, u)) && u in ClassOf(g, u)
  {
    ReachRefl(g, u);
    var c := ClassOf(g, u);
    assert u in c;
    forall x, y | x in c ensures y in c <==> Mutual(g, x, y) {
      if y in c {
        ReachTrans(g, x, u, y);
        ReachTrans(g, y, u, x);
      }
      if Mutual(g, x, y) {
        ReachInGraph(g, x, y);
        ReachTrans(g, u, x, y);
        ReachTrans(g, y, x, u);
      }
    }
  }

  /** The edges whose ends share a cyclic component: exactly the edges on import cycles. */
  method CyclicEdges(modules: set<Module>, edges: seq<ImportEdge>)
    returns (components: seq<set<Module>>, cyclic: seq<ImportEdge>)
    requires Known(modules, edges)
    ensures forall c :: c in components <==> IsCycle(GraphOf(modules, edges), c)
    ensures cyclic == CyclicOf(GraphOf(modules, edges), edges)
  {
    ghost var g := GraphOf(modules, edges);
    GraphOfEdges(modules, edges);
    components := StrongComponents(modules, edges);
    var position := IndexComponents(components);
    forall m | m in position ensures m in g {
      assert m in components[position[m]] && components[position[m]] in components;
    }
    cyclic := [];
    for k := 0 to |edges|
      invariant cyclic == CyclicOf(g, edges[..k])
    {
      var e := edges[k];
      var shared := e.importer in position && e.imported in position && position[e.importer] == position[e.imported];
      assert shared <==> OnCycle(g, e) by {
        if e.importer in g {
          SharedComponent(g, components, e);
        }
        if shared {
          var i := position[e.importer];
          assert e.importer in components[i] && e.imported in components[i];
        }
      }
      if shared {
        cyclic := cyclic + [e];
      }
      assert edges[..k + 1][..k] == edges[..k];
    }
    assert edges[..|edges|] == edges;
  }

  lemma {:induction false} CyclicOfMember(g: Graph, edges: seq<ImportEdge>, e: ImportEdge)
    ensures e in CyclicOf(g, edges) <==> e in edges && OnCycle(g, e)
  {
    if edges != [] {
      var n := |edges| - 1;
      CyclicOfMember(g, edges[..n], e);
      assert edges == edges[..n] + [edges[n]];
    }
  }

  // ----- the certificate -----

  /** rank strictly falls along every import. */
  ghost predicate Topological(g: Graph, rank: map<Module, nat>) {
    && rank.Keys == g.Keys
    && (forall u, v :: HasEdge(g, u, v) && u in rank && v in rank ==> rank[v] < rank[u])
  }

  ghost predicate Numberable(g: Graph) {
    exists rank :: Topological(g, rank)
  }

  ghost function ReachSet(g: Graph, u: Module): set<Module> {
    set v | v in g && Reach(g, u, v)
  }

  lemma RankFalls(g: Graph, u: Module, v: Module)
    requires IsGraph(g) && HasEdge(g, u, v) && !Reach(g, v, u)
    ensures |ReachSet(g, v)| < |ReachSet(g, u)|
  {
    ReachRefl(g, u);
    forall w | w in ReachSet(g, v) ensures w in ReachSet(g, u) {
      ReachStep(g, u, v, w);
    }
    SmallerSet(ReachSet(g, v), ReachSet(g, u), u);
  }

  lemma SmallerSet(a: set<Module>, b: set<Module>, x: Module)
    requires a <= b && x in b && x !in a
    ensures |a| < |b|
  {
    assert |b - a| + |a| == |b|;
    assert x in b - a;
  }

  lemma {:induction false} RankAlongPath(g: Graph, rank: map<Module, nat>, u: Module, v: Module, n: nat)
    requires IsGraph(g) && Topological(g, rank) && u in g && ReachIn(g, u, v, n)
    ensures v in g && rank[v] + n <= rank[u]
    decreases n
  {
    if n != 0 {
      var w :| HasEdge(g, u, w) && ReachIn(g, w, v, n - 1);
      RankAlongPath(g, rank, w, v, n - 1);
    }
  }

  /** A graph has no cyclic component exactly when its modules can be numbered so that every
      import goes to a smaller number. */
  lemma AcyclicIffNumbered(g: Graph)
    requires IsGraph(g)
    ensures (forall c :: !IsCycle(g, c)) <==> Numberable(g)
  {
    if forall c :: !IsCycle(g, c) {
      var rank := map u | u in g :: |ReachSet(g, u)|;
      forall u, v | HasEdge(g, u, v) ensures rank[v] < rank[u] {
        EdgeClosesCycle(g, u, v);
        RankFalls(g, u, v);
      }
      assert Topological(g, rank);
    }
    if rank :| Topological(g, rank) {
      forall c ensures !IsCycle(g, c) {
        NumberedHasNoCycle(g, rank, c);
      }
    }
  }

  lemma EdgeClosesCycle(g: Graph, u: Module, v: Module)
    requires IsGraph(g) && HasEdge(g, u, v) && forall c :: !IsCycle(g, c)
    ensures !Reach(g, v, u)
  {
    ClassIsScc(g, u);
    ReachEdge(g, u, v);
    assert !IsCycle(g, ClassOf(g, u));
    if v in ClassOf(g, u) && u != v {
      PairInside(ClassOf(g, u), u, v);
    }
  }

  lemma NumberedHasNoCycle(g: Graph, rank: map<Module, nat>, c: set<Module>)
    requires IsGraph(g) && Topological(g, rank)
    ensures !IsCycle(g, c)
  {
    if IsScc(g, c) && c <= g.Keys {
      forall x, y | x in c && y in c ensures x == y {
        assert Mutual(g, x, y);
        var n: nat :| ReachIn(g, x, y, n);
        RankAlongPath(g, rank, x, y, n);
        var m: nat :| ReachIn(g, y, x, m);
        RankAlongPath(g, rank, y, x, m);
      }
      var x :| x in c;
      assert c == {x};
    }
  }

  /** Some live edge on a cycle of the whole graph carries this key. */
  ghost predicate Live(g: Graph, edges: seq<ImportEdge>, key: EdgeKey) {
    exists e :: e in edges && OnCycle(g, e)
      && key.importer == e.importer && key.importerPath == e.importerPath && key.imported == e.imported && key.symbols == e.symbols
  }

  function Effective(edges: seq<ImportEdge>, keys: set<EdgeKey>): seq<ImportEdge> {
    if edges == [] then []
    else
      var last := edges[|edges| - 1];
      Effective(edges[..|edges| - 1], keys) + (if KeyOf(last) in keys then [] else [last])
  }

  lemma {:induction false} EffectiveMember(edges: seq<ImportEdge>, keys: set<EdgeKey>, e: ImportEdge)
    ensures e in Effective(edges, keys) <==> e in edges && EdgeKey(e.importer, e.importerPath, e.imported, e.symbols) !in keys
  {
    if edges != [] {
      var n := |edges| - 1;
      EffectiveMember(edges[..n], keys, e);
      assert edges == edges[..n] + [edges[n]];
    }
  }

  /** The cycle section of the check: an error per dead exception and per cycle that survives
      deleting the excepted edges. */
  method CheckCycles(modules: set<Module>, edges: seq<ImportEdge>, keys: set<EdgeKey>) returns (errors: seq<CycleError>)
    requires Known(modules, edges)
    ensures forall key :: StaleException(key) in errors <==> key in keys && !Live(GraphOf(modules, edges), edges, key)
    ensures forall c :: UnownedCycle(c) in errors <==> IsCycle(GraphOf(modules, Effective(edges, keys)), c)
    ensures errors == [] <==>
      (forall key :: key in keys ==> Live(GraphOf(modules, edges), edges, key)) &&
      Numberable(GraphOf(modules, Effective(edges, keys)))
  {
    hide Live, Numberable, IsCycle, GraphOf, IsGraph;
    var _, cyclic := CyclicEdges(modules, edges);
    var stale := StaleKeys(GraphOf(modules, edges), edges, cyclic, keys);
    var effective := Effective(edges, keys);
    ghost var rest := GraphOf(modules, effective);
    forall e | e in effective ensures e in edges {
      EffectiveMember(edges, keys, e);
    }
    var remaining := StrongComponents(modules, effective);
    errors := stale;
    for k := 0 to |remaining|
      invariant forall key :: StaleException(key) in errors <==> StaleException(key) in stale
      invariant forall c :: UnownedCycle(c) in errors <==> c in remaining[..k]
      invariant |errors| == |stale| + k
    {
      errors := errors + [UnownedCycle(remaining[k])];
      assert remaining[..k + 1] == remaining[..k] + [remaining[k]];
    }
    assert remaining[..|remaining|] == remaining;
    GraphOfEdges(modules, effective);
    AcyclicIffNumbered(rest);
    assert remaining == [] <==> forall c :: !IsCycle(rest, c) by {
      if remaining != [] { assert remaining[0] in remaining; }
    }
    assert errors == [] <==> stale == [] && remaining == [];
    assert remaining == [] <==> Numberable(rest);
    assert stale == [] <==> forall key :: key in keys ==> Live(GraphOf(modules, edges), edges, key);
  }

  method StaleKeys(ghost g: Graph, ghost edges: seq<ImportEdge>, cyclic: seq<ImportEdge>, keys: set<EdgeKey>)
    returns (stale: seq<CycleError>)
    requires cyclic == CyclicOf(g, edges)
    ensures forall key :: StaleException(key) in stale <==> key in keys && !Live(g, edges, key)
    ensures forall c :: UnownedCycle(c) !in stale
    ensures stale == [] <==> forall key :: key in keys ==> Live(g, edges, key)
  {
    var current := set e | e in cyclic :: KeyOf(e);
    forall key ensures key in current <==> Live(g, edges, key) {
      forall e { CyclicOfMember(g, edges, e); }
    }
    stale := [];
    var dead := keys - current;
    assert forall key :: key in dead <==> key in keys && !Live(g, edges, key);
    var left := dead;
    while left != {}
      invariant left <= dead
      invariant forall key :: StaleException(key) in stale <==> key in dead && key !in left
      invariant forall c :: UnownedCycle(c) !in stale
      invariant stale == [] <==> left == dead
      decreases left
    {
      var key :| key in left;
      stale := stale + [StaleException(key)];
      left := left - {key};
    }
    if stale == [] {
      assert dead == {};
      forall key | key in keys ensures Live(g, edges, key) {
        assert key !in dead;
      }
    }
  }
}
