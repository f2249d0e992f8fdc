/** Tarjan's search for strongly connected components, as the import checker runs it. */
module Tarjan {
  import opened Graphs

  /** What the search has done so far: discovery numbers, the stack (bottom first), and the
      components popped (first popped first). */
  datatype Progress = Progress(indices: map<Module, nat>, stack: seq<Module>, components: seq<set<Module>>)

  ghost function Popped(components: seq<set<Module>>): set<Module> {
    set i, x | 0 <= i < |components| && x in components[i] :: x
  }

  /** Numbers grow from the bottom of the stack to its top. */
  ghost predicate Stacked(p: Progress) {
    && (forall x :: x in p.stack ==> x in p.indices)
    && (forall i, j :: 0 <= i < j < |p.stack| ==> p.indices[p.stack[i]] < p.indices[p.stack[j]])
  }

  /** A discovered module is either on the stack or in a popped component, never both. */
  ghost predicate Partitioned(p: Progress) {
    && (forall x :: x in p.indices <==> x in p.stack || x in Popped(p.components))
    && (forall x :: x in p.stack ==> x !in Popped(p.components))
  }

  /** A module whose visit is over imports discovered modules only. */
  ghost predicate Explored(g: Graph, open: set<Module>, p: Progress) {
    forall u, v :: u in p.indices && u !in open && HasEdge(g, u, v) ==> v in p.indices
  }

  /** A stacked module reaches everything above it. */
  ghost predicate Upward(g: Graph, p: Progress) {
    forall i, j :: 0 <= i <= j < |p.stack| ==> Reach(g, p.stack[i], p.stack[j])
  }

  ghost predicate GroundedAt(g: Graph, open: set<Module>, p: Progress, y: Module, x: Module) {
    && x in open && x in p.indices && y in p.indices
    && p.indices[x] <= p.indices[y] && Reach(g, y, x)
  }

  ghost predicate IsGrounded(g: Graph, open: set<Module>, p: Progress, y: Module) {
    exists x :: GroundedAt(g, open, p, y, x)
  }

  /** A stacked module reaches one whose visit is still open, found no later. */
  ghost predicate Grounded(g: Graph, open: set<Module>, p: Progress) {
    forall y {:trigger IsGrounded(g, open, p, y)} :: y in p.stack ==> IsGrounded(g, open, p, y)
  }

  /** Popped sets are disjoint components, and no edge leads from one to a later one or out of them. */
  ghost predicate Finished(g: Graph, components: seq<set<Module>>) {
    && (forall i :: 0 <= i < |components| ==> IsScc(g, components[i]) && components[i] !! Popped(components[..i]))
    && (forall k :: 0 <= k <= |components| ==> EdgeClosed(g, Popped(components[..k])))
  }

  /** The invariant of the search while the visits of the modules in `open` are under way. */
  ghost predicate Inv(g: Graph, open: set<Module>, p: Progress) {
    && Stacked(p) && Partitioned(p)
    && (forall x :: x in open ==> x in p.stack)
    && Explored(g, open, p) && Upward(g, p) && Grounded(g, open, p)
    && Finished(g, p.components)
  }

  /** q continues p: nothing below p's top and nothing popped has changed. */
  ghost predicate Extends(p: Progress, q: Progress) {
    && p.stack <= q.stack && p.components <= q.components
    && p.indices.Keys <= q.indices.Keys
    && (forall x :: x in p.indices ==> q.indices[x] == p.indices[x])
  }

  lemma ExtendsTrans(p: Progress, q: Progress, r: Progress)
    requires Extends(p, q) && Extends(q, r)
    ensures Extends(p, r)
  {}

  /** No edge from u to a module below the stack height h undercuts `low`. */
  ghost predicate BoundsFrom(g: Graph, p: Progress, h: nat, low: nat, u: Module)
    requires h <= |p.stack|
  {
    forall v :: HasEdge(g, u, v) && v in p.stack[..h] && v in p.indices ==> low <= p.indices[v]
  }

  ghost predicate Bounds(g: Graph, p: Progress, h: nat, from: nat, low: nat)
    requires h <= |p.stack|
  {
    forall k :: from <= k < |p.stack| ==> BoundsFrom(g, p, h, low, p.stack[k])
  }

  /** `low` is the number of a stacked module that x reaches. */
  ghost predicate Witnessed(g: Graph, p: Progress, x: Module, low: nat) {
    exists y :: y in p.stack && y in p.indices && p.indices[y] == low && Reach(g, x, y)
  }

  // ----- the steps of a visit -----

  /** Opening a visit: number the module and push it. */
  function Push(p: Progress, x: Module, n: nat): Progress {
    Progress(p.indices[x := n], p.stack + [x], p.components)
  }

  lemma PushKeepsInv(g: Graph, open: set<Module>, p: Progress, x: Module, n: nat)
    requires Inv(g, open, p) && x !in p.indices
    requires forall y :: y in p.indices ==> p.indices[y] < n
    requires forall y :: y in open ==> Reach(g, y, x)
    ensures Inv(g, open + {x}, Push(p, x, n)) && Extends(p, Push(p, x, n))
  {
    var q := Push(p, x, n);
    assert q.stack[..|p.stack|] == p.stack;
    PushUpward(g, open, p, x, n);
    PushGrounded(g, open, p, x, n);
    assert Explored(g, open + {x}, q);
  }

  lemma PushUpward(g: Graph, open: set<Module>, p: Progress, x: Module, n: nat)
    requires Upward(g, p) && Grounded(g, open, p)
    requires forall y :: y in open ==> Reach(g, y, x)
    ensures Upward(g, Push(p, x, n))
  {
    var q := Push(p, x, n);
    forall i, j | 0 <= i <= j < |q.stack| ensures Reach(g, q.stack[i], q.stack[j]) {
      if j < |p.stack| {
        assert q.stack[i] == p.stack[i] && q.stack[j] == p.stack[j];
      } else if i < |p.stack| {
        assert q.stack[i] == p.stack[i] && p.stack[i] in p.stack;
        assert IsGrounded(g, open, p, p.stack[i]);
        var z :| GroundedAt(g, open, p, p.stack[i], z);
        ReachTrans(g, p.stack[i], z, x);
      } else {
        ReachRefl(g, x);
      }
    }
  }

  lemma PushGrounded(g: Graph, open: set<Module>, p: Progress, x: Module, n: nat)
    requires Grounded(g, open, p) && x !in p.indices
    ensures Grounded(g, open + {x}, Push(p, x, n))
  {
    var q := Push(p, x, n);
    forall y | y in q.stack ensures IsGrounded(g, open + {x}, q, y) {
      if y in p.stack {
        assert IsGrounded(g, open, p, y);
        var z :| GroundedAt(g, open, p, y, z);
        assert GroundedAt(g, open + {x}, q, y, z);
      } else {
        ReachRefl(g, x);
        assert GroundedAt(g, open + {x}, q, y, x);
      }
    }
  }

  /** Closing a visit whose module reaches something lower: it stays on the stack. */
  lemma CloseKeepsInv(g: Graph, open: set<Module>, p: Progress, x: Module, low: nat)
    requires Inv(g, open + {x}, p) && x in p.stack
    requires forall v :: HasEdge(g, x, v) ==> v in p.indices
    requires Witnessed(g, p, x, low) && low < p.indices[x]
    ensures Inv(g, open, p)
  {
    CloseGrounded(g, open, p, x, low);
    assert Explored(g, open, p);
  }

  lemma CloseGrounded(g: Graph, open: set<Module>, p: Progress, x: Module, low: nat)
    requires Grounded(g, open + {x}, p) && x in p.indices
    requires Witnessed(g, p, x, low) && low < p.indices[x]
    ensures Grounded(g, open, p)
  {
    var w :| w in p.stack && w in p.indices && p.indices[w] == low && Reach(g, x, w);
    assert IsGrounded(g, open + {x}, p, w);
    var z0 :| GroundedAt(g, open + {x}, p, w, z0);
    forall y | y in p.stack ensures IsGrounded(g, open, p, y) {
      assert IsGrounded(g, open + {x}, p, y);
      var z :| GroundedAt(g, open + {x}, p, y, z);
      if z in open {
        assert GroundedAt(g, open, p, y, z);
      } else {
        ReachTrans(g, y, x, w);
        ReachTrans(g, y, w, z0);
        assert GroundedAt(g, open, p, y, z0);
      }
    }
  }

  function TopOf(stack: seq<Module>, h: nat): set<Module> {
    set k | h <= k < |stack| :: stack[k]
  }

  lemma TopOfExtend(stack: seq<Module>, h: nat)
    requires h < |stack|
    ensures TopOf(stack, h) == TopOf(stack, h + 1) + {stack[h]}
  {}

  /** Closing a visit whose module reaches nothing lower: everything from it upwards is popped. */
  function Pop(p: Progress, h: nat): Progress
    requires h <= |p.stack|
  {
    Progress(p.indices, p.stack[..h], p.components + [TopOf(p.stack, h)])
  }

  lemma PoppedAppend(components: seq<set<Module>>, c: set<Module>)
    ensures Popped(components + [c]) == Popped(components) + c
  {
    var all := components + [c];
    forall x | x in Popped(components) + c ensures x in Popped(all) {
      if x in c {
        assert x in all[|components|];
      } else {
        var i :| 0 <= i < |components| && x in components[i];
        assert x in all[i];
      }
    }
    forall x | x in Popped(all) ensures x in Popped(components) + c {
      var i :| 0 <= i < |all| && x in all[i];
      if i < |components| { assert x in components[i]; }
    }
  }

  ghost predicate Ready(g: Graph, open: set<Module>, p: Progress, x: Module, h: nat) {
    && Inv(g, open + {x}, p) && x !in open
    && h < |p.stack| && p.stack[h] == x
    && (forall y :: y in open ==> y in p.stack[..h])
    && (forall v :: HasEdge(g, x, v) ==> v in p.indices)
    && Bounds(g, p, h, h, p.indices[x])
  }

  /** Cutting the stack at h splits it by discovery number. */
  lemma Cut(p: Progress, h: nat, v: Module)
    requires Stacked(p) && h < |p.stack| && v in p.stack
    ensures v in TopOf(p.stack, h) <==> v !in p.stack[..h]
    ensures v in p.stack[..h] ==> p.indices[v] < p.indices[p.stack[h]]
  {
    var i :| 0 <= i < |p.stack| && p.stack[i] == v;
    if i < h {
      assert p.stack[..h][i] == v;
    } else {
      assert forall j :: 0 <= j < h ==> p.stack[..h][j] == p.stack[j];
    }
  }

  /** No edge leaves the popped set except into components popped before. */
  lemma TopIsClosed(g: Graph, open: set<Module>, p: Progress, x: Module, h: nat)
    requires Ready(g, open, p, x, h)
    ensures EdgeClosed(g, Popped(Pop(p, h).components))
  {
    var c := TopOf(p.stack, h);
    PoppedAppend(p.components, c);
    assert p.components[..|p.components|] == p.components;
    forall u, v | u in Popped(p.components) + c && HasEdge(g, u, v)
      ensures v in Popped(p.components) + c
    {
      if u in c {
        Cut(p, h, u);
        var k :| h <= k < |p.stack| && p.stack[k] == u;
        assert BoundsFrom(g, p, h, p.indices[x], p.stack[k]);
        if v in p.stack {
          Cut(p, h, v);
        }
      }
    }
  }

  lemma TopIsScc(g: Graph, open: set<Module>, p: Progress, x: Module, h: nat)
    requires Ready(g, open, p, x, h)
    ensures IsScc(g, TopOf(p.stack, h))
  {
    var c := TopOf(p.stack, h);
    assert p.stack[h] in c;
    forall y | y in c ensures Mutual(g, x, y) {
      var k :| h <= k < |p.stack| && p.stack[k] == y;
      assert Reach(g, p.stack[h], p.stack[k]);
      BackToTop(g, open, p, x, h, k);
    }
    forall y, z | y in c && z in c ensures Mutual(g, y, z) {
      ReachTrans(g, y, x, z);
      ReachTrans(g, z, x, y);
    }
    forall y, z | y in c && Mutual(g, y, z) ensures z in c {
      PoppedAppend(p.components, c);
      TopIsClosed(g, open, p, x, h);
      ClosedReach(g, Popped(Pop(p, h).components), y, z);
      assert p.components[..|p.components|] == p.components;
      assert y in p.stack;
      if z in Popped(p.components) {
        ClosedReach(g, Popped(p.components), z, y);
      }
    }
  }

  /** What lies above x on the stack reaches x. */
  lemma BackToTop(g: Graph, open: set<Module>, p: Progress, x: Module, h: nat, k: nat)
    requires Ready(g, open, p, x, h) && h <= k < |p.stack|
    ensures Reach(g, p.stack[k], x)
  {
    hide Finished, Partitioned, Explored, Bounds, Stacked, Reach;
    assert p.stack[k] in p.stack;
    assert IsGrounded(g, open + {x}, p, p.stack[k]);
    var z :| GroundedAt(g, open + {x}, p, p.stack[k], z);
    if z != x {
      var i :| 0 <= i < h && p.stack[..h][i] == z;
      assert Reach(g, p.stack[i], p.stack[h]);
      ReachTrans(g, p.stack[k], z, x);
    }
  }

  lemma PopKeepsInv(g: Graph, open: set<Module>, p: Progress, x: Module, h: nat)
    requires Ready(g, open, p, x, h)
    ensures Inv(g, open, Pop(p, h))
  {
    hide Partitioned, Grounded, Finished, Reach, Bounds;
    var c := TopOf(p.stack, h);
    var q := Pop(p, h);
    PoppedAppend(p.components, c);
    TopIsScc(g, open, p, x, h);
    TopIsClosed(g, open, p, x, h);
    PopPartitioned(p, h);
    PopFinished(g, p, h);
    PopGrounded(g, open, p, x, h);
    forall i, j | 0 <= i <= j < |q.stack| ensures Reach(g, q.stack[i], q.stack[j]) {
      assert q.stack[i] == p.stack[i] && q.stack[j] == p.stack[j];
    }
    forall u, v | u in q.indices && u !in open && HasEdge(g, u, v) ensures v in q.indices {}
  }

  lemma PopFinished(g: Graph, p: Progress, h: nat)
    requires h <= |p.stack| && Finished(g, p.components)
    requires IsScc(g, TopOf(p.stack, h))
    requires EdgeClosed(g, Popped(Pop(p, h).components))
    requires TopOf(p.stack, h) !! Popped(p.components)
    ensures Finished(g, Pop(p, h).components)
  {
    var q := Pop(p, h);
    forall k | 0 <= k < |q.components| ensures IsScc(g, q.components[k]) && q.components[k] !! Popped(q.components[..k]) {
      assert q.components[..k] == p.components[..k];
      if k == |p.components| {
        assert p.components[..k] == p.components;
      }
    }
    forall k | 0 <= k <= |q.components| ensures EdgeClosed(g, Popped(q.components[..k])) {
      if k <= |p.components| {
        assert q.components[..k] == p.components[..k];
      } else {
        assert q.components[..k] == q.components;
      }
    }
  }

  lemma PopPartitioned(p: Progress, h: nat)
    requires h <= |p.stack| && Stacked(p) && Partitioned(p)
    ensures Stacked(Pop(p, h)) && Partitioned(Pop(p, h))
    ensures TopOf(p.stack, h) !! Popped(p.components)
  {
    var c := TopOf(p.stack, h);
    var q := Pop(p, h);
    PoppedAppend(p.components, c);
    forall x | x in q.stack ensures x in p.stack && x !in c {
      var i :| 0 <= i < h && q.stack[i] == x;
      assert p.stack[i] == x;
    }
    forall x | x in p.stack ensures x in q.stack || x in c {
      var i :| 0 <= i < |p.stack| && p.stack[i] == x;
      if i < h { assert q.stack[i] == x; }
    }
    forall x | x in c ensures x in p.stack {}
  }

  lemma PopGrounded(g: Graph, open: set<Module>, p: Progress, x: Module, h: nat)
    requires Ready(g, open, p, x, h)
    ensures Grounded(g, open, Pop(p, h))
  {
    hide Partitioned, Explored, Upward, Finished, Bounds, Reach;
    var q := Pop(p, h);
    forall y | y in q.stack ensures IsGrounded(g, open, q, y) {
      var i :| 0 <= i < h && q.stack[i] == y;
      assert p.stack[i] == y;
      assert IsGrounded(g, open + {x}, p, y);
      var z :| GroundedAt(g, open + {x}, p, y, z);
      assert p.indices[p.stack[i]] < p.indices[p.stack[h]];
      assert GroundedAt(g, open, q, y, z);
    }
  }

  // ----- bounds along a visit -----

  /** Bounds below a lower height survive when the stack grows and the bound drops. */
  lemma BoundsExtend(g: Graph, p: Progress, q: Progress, h: nat, from: nat, low: nat, low': nat)
    requires Extends(p, q) && h <= |p.stack| && low' <= low && Stacked(p)
    requires Bounds(g, p, h, from, low)
    requires Bounds(g, q, |p.stack|, |p.stack|, low')
    ensures Bounds(g, q, h, from, low')
  {
    forall k | from <= k < |q.stack| ensures BoundsFrom(g, q, h, low', q.stack[k]) {
      assert q.stack[..h] == p.stack[..h];
      if k < |p.stack| {
        assert BoundsFrom(g, p, h, low, p.stack[k]);
      } else {
        assert BoundsFrom(g, q, |p.stack|, low', q.stack[k]);
        forall v | v in q.stack[..h] ensures v in q.stack[..|p.stack|] {
          var i :| 0 <= i < h && q.stack[..h][i] == v;
          assert q.stack[..|p.stack|][i] == v;
        }
      }
    }
  }

  lemma BoundsWeaken(g: Graph, p: Progress, h: nat, from: nat, low: nat, low': nat)
    requires h <= |p.stack| && low' <= low && Bounds(g, p, h, from, low)
    ensures Bounds(g, p, h, from, low')
  {
    forall k | from <= k < |p.stack| ensures BoundsFrom(g, p, h, low', p.stack[k]) {
      assert BoundsFrom(g, p, h, low, p.stack[k]);
    }
  }

  function Min(a: nat, b: nat): nat {
    if a <= b then a else b
  }

  /** The visit of x, pushed at height h, has looked at every import outside `remaining`. */
  ghost predicate Scan(g: Graph, open: set<Module>, p: Progress, x: Module, h: nat, low: nat, remaining: set<Module>) {
    && Inv(g, open + {x}, p) && x !in open && x in g && x in p.indices
    && h < |p.stack| && p.stack[h] == x
    && (forall y :: y in open ==> y in p.stack[..h])
    && low <= p.indices[x] && Witnessed(g, p, x, low)
    && Bounds(g, p, h, h + 1, low)
    && (forall v :: v in g[x] && v !in remaining ==> v in p.indices)
    && (forall v :: v in g[x] && v !in remaining && v in p.stack[..h] ==> low <= p.indices[v])
  }

  lemma ScanStart(g: Graph, open: set<Module>, p: Progress, x: Module, n: nat)
    requires Inv(g, open, p) && x !in p.indices && x in g
    requires forall y :: y in p.indices ==> p.indices[y] < n
    requires forall y :: y in open ==> Reach(g, y, x)
    ensures Scan(g, open, Push(p, x, n), x, |p.stack|, n, g[x]) && Extends(p, Push(p, x, n))
  {
    PushKeepsInv(g, open, p, x, n);
    var q := Push(p, x, n);
    assert q.stack[..|p.stack|] == p.stack;
    ReachRefl(g, x);
    assert q.stack[|p.stack|] == x && q.indices[x] == n;
    assert Witnessed(g, q, x, n);
  }

  /** An import already discovered: its number counts if it is still on the stack. */
  lemma ScanSeen(g: Graph, open: set<Module>, p: Progress, x: Module, h: nat, low: nat, remaining: set<Module>, v: Module)
    requires Scan(g, open, p, x, h, low, remaining) && v in g[x] && v in p.indices
    ensures v in p.stack ==> Scan(g, open, p, x, h, Min(low, p.indices[v]), remaining - {v})
    ensures v !in p.stack ==> Scan(g, open, p, x, h, low, remaining - {v})
  {
    if v in p.stack {
      var low' := Min(low, p.indices[v]);
      BoundsWeaken(g, p, h, h + 1, low, low');
      ReachEdge(g, x, v);
      assert Witnessed(g, p, x, low');
    } else {
      InPrefix(p.stack, h, v);
    }
  }

  lemma InPrefix(s: seq<Module>, h: nat, v: Module)
    requires h <= |s| && v !in s
    ensures v !in s[..h]
  {}

  /** An import whose own visit has just returned with lowlink `sub`. */
  lemma ScanVisited(g: Graph, open: set<Module>, p: Progress, q: Progress, x: Module, h: nat,
                    low: nat, sub: nat, remaining: set<Module>, v: Module)
    requires Scan(g, open, p, x, h, low, remaining) && v in g[x]
    requires Inv(g, open + {x}, q) && Extends(p, q) && v in q.indices && p.indices[x] <= q.indices[v]
    requires sub == q.indices[v] || Witnessed(g, q, v, sub)
    requires Bounds(g, q, |p.stack|, |p.stack|, sub)
    requires v !in p.indices
    ensures Scan(g, open, q, x, h, Min(low, sub), remaining - {v})
  {
    hide Partitioned, Explored, Upward, Grounded, Finished, Bounds, Reach, Witnessed;
    var low' := Min(low, sub);
    BoundsWeaken(g, q, |p.stack|, |p.stack|, sub, low');
    BoundsExtend(g, p, q, h, h + 1, low, low');
    assert q.stack[..h] == p.stack[..h] && q.stack[h] == p.stack[h];
    WitnessKept(g, p, q, x, low);
    if low' != low {
      WitnessAcross(g, q, x, v, sub);
    }
    InStack(p, h, v);
  }

  /** What an import of x reaches, x reaches. */
  lemma WitnessAcross(g: Graph, q: Progress, x: Module, v: Module, sub: nat)
    requires HasEdge(g, x, v) && Witnessed(g, q, v, sub)
    ensures Witnessed(g, q, x, sub)
  {
    hide Reach;
    var y :| y in q.stack && y in q.indices && q.indices[y] == sub && Reach(g, v, y);
    ReachStep(g, x, v, y);
  }

  lemma WitnessKept(g: Graph, p: Progress, q: Progress, x: Module, low: nat)
    requires Extends(p, q) && Witnessed(g, p, x, low)
    ensures Witnessed(g, q, x, low)
  {
    var y :| y in p.stack && y in p.indices && p.indices[y] == low && Reach(g, x, y);
    var i :| 0 <= i < |p.stack| && p.stack[i] == y;
    assert q.stack[i] == y;
  }

  lemma InStack(p: Progress, h: nat, v: Module)
    requires Stacked(p) && h <= |p.stack| && v !in p.indices
    ensures v !in p.stack[..h]
  {
    InPrefix(p.stack, h, v);
  }

  lemma ScanBounds(g: Graph, open: set<Module>, p: Progress, x: Module, h: nat, low: nat)
    requires Scan(g, open, p, x, h, low, {})
    ensures Bounds(g, p, h, h, low)
  {
    hide Inv;
    forall k | h <= k < |p.stack| ensures BoundsFrom(g, p, h, low, p.stack[k]) {}
  }

  lemma ScanReady(g: Graph, open: set<Module>, p: Progress, x: Module, h: nat)
    requires x in p.indices && Scan(g, open, p, x, h, p.indices[x], {})
    ensures Ready(g, open, p, x, h)
  {
    ScanBounds(g, open, p, x, h, p.indices[x]);
  }

  /** The mutable state of one run of the search over the graph g. */
  class Search {
    const g: Graph
    var index: nat
    var indices: map<Module, nat>
    var lowlinks: map<Module, nat>
    var stack: seq<Module>
    var onStack: set<Module>
    var components: seq<set<Module>>

    constructor (g: Graph)
      ensures this.g == g && At() == Progress(map[], [], []) && Consistent()
    {
      this.g := g;
      index, indices, lowlinks, stack, onStack, components := 0, map[], map[], [], {}, [];
    }

    ghost function At(): Progress
      reads this
    {
      Progress(indices, stack, components)
    }

    ghost predicate Consistent()
      reads this
    {
      && lowlinks.Keys == indices.Keys <= g.Keys
      && (forall x :: x in onStack <==> x in stack)
      && (forall x :: x in indices ==> indices[x] < index)
    }

    /** Discover everything reachable from `current`; imports are taken in any order. */
    method Visit(current: Module, ghost open: set<Module>)
      requires IsGraph(g) && current in g && current !in indices
      requires Consistent() && Inv(g, open, At())
      requires forall y :: y in open ==> Reach(g, y, current)
      modifies this
      ensures Consistent() && Inv(g, open, At()) && Extends(old(At()), At())
      ensures current in indices && old(index) <= indices[current]
      ensures forall x :: x in old(indices) ==> lowlinks[x] == old(lowlinks)[x]
      ensures lowlinks[current] == indices[current] || Witnessed(g, At(), current, lowlinks[current])
      ensures Bounds(g, At(), |old(stack)|, |old(stack)|, lowlinks[current])
      decreases g.Keys - indices.Keys, 0
    {
      hide Stacked, Partitioned, Explored, Upward, Grounded, Finished, Bounds;
      ghost var h := |stack|;
      ghost var p0, lows := At(), lowlinks;
      Enter(current, open);
      var remaining := g[current];
      while remaining != {}
        invariant Consistent() && remaining <= g[current] && current in indices
        invariant Scan(g, open, At(), current, h, lowlinks[current], remaining)
        invariant Extends(p0, At()) && old(index) <= indices[current]
        invariant forall x :: x in p0.indices ==> lowlinks[x] == lows[x]
        decreases remaining
      {
        var imported :| imported in remaining;
        ghost var p := At();
        Follow(current, imported, open, h, remaining);
        ExtendsTrans(p0, p, At());
        remaining := remaining - {imported};
      }
      Leave(current, open, h, p0);
    }

    /** Number `current` and push it. */
    method Enter(current: Module, ghost open: set<Module>)
      requires current in g && current !in indices && Consistent() && Inv(g, open, At())
      requires forall y :: y in open ==> Reach(g, y, current)
      modifies this
      ensures Consistent() && Extends(old(At()), At())
      ensures current in indices && indices[current] == old(index)
      ensures Scan(g, open, At(), current, |old(stack)|, lowlinks[current], g[current])
      ensures forall x :: x in old(indices) ==> lowlinks[x] == old(lowlinks)[x]
    {
      hide Inv, Reach, Bounds, Extends;
      ghost var p := At();
      ScanStart(g, open, p, current, index);
      indices, lowlinks := indices[current := index], lowlinks[current := index];
      index := index + 1;
      stack := stack + [current];
      onStack := onStack + {current};
      assert At() == Push(p, current, index - 1);
    }

    /** Take one import of `current` into account, visiting it if it is new. */
    method Follow(current: Module, imported: Module, ghost open: set<Module>, ghost h: nat, ghost remaining: set<Module>)
      requires IsGraph(g) && Consistent() && HasEdge(g, current, imported) && current in indices
      requires Scan(g, open, At(), current, h, lowlinks[current], remaining)
      requires forall y :: y in open ==> Reach(g, y, current)
      modifies this
      ensures Consistent() && Extends(old(At()), At()) && current in indices
      ensures Scan(g, open, At(), current, h, lowlinks[current], remaining - {imported})
      ensures forall x :: x in old(indices) && x != current ==> lowlinks[x] == old(lowlinks)[x]
      decreases g.Keys - indices.Keys, 1
    {
      hide Stacked, Partitioned, Explored, Upward, Grounded, Finished, Bounds;
      ghost var p := At();
      if imported !in indices {
        OpenReach(g, open, current, imported);
        Visit(imported, open + {current});
        ghost var q := At();
        ScanVisited(g, open, p, q, current, h, lowlinks[current], lowlinks[imported], remaining, imported);
        LowerTo(current, lowlinks[imported]);
      } else {
        ScanSeen(g, open, p, current, h, lowlinks[current], remaining, imported);
        if imported in onStack {
          LowerTo(current, indices[imported]);
        }
      }
    }

    method LowerTo(current: Module, low: nat)
      requires current in lowlinks
      modifies `lowlinks
      ensures lowlinks == old(lowlinks)[current := Min(old(lowlinks)[current], low)]
      ensures At() == old(At())
    {
      lowlinks := lowlinks[current := Min(lowlinks[current], low)];
    }

    /** Close the visit of `current`, popping its component if it is the first found of it. */
    method Leave(current: Module, ghost open: set<Module>, ghost h: nat, ghost p0: Progress)
      requires Consistent() && current in indices
      requires Scan(g, open, At(), current, h, lowlinks[current], {})
      requires Extends(p0, At()) && |p0.stack| == h
      modifies `stack, `onStack, `components
      ensures Consistent() && Inv(g, open, At()) && Extends(p0, At())
      ensures lowlinks[current] == indices[current] || Witnessed(g, At(), current, lowlinks[current])
      ensures Bounds(g, At(), h, h, lowlinks[current])
    {
      hide Partitioned, Explored, Upward, Grounded, Finished;
      ScanBounds(g, open, At(), current, h, lowlinks[current]);
      if lowlinks[current] != indices[current] {
        CloseKeepsInv(g, open, At(), current, lowlinks[current]);
        return;
      }
      ScanReady(g, open, At(), current, h);
      PopKeepsInv(g, open, At(), current, h);
      PopComponent(current, h);
    }

    /** Move the top of the stack, down to `current` at height h, into a new component. */
    method PopComponent(current: Module, ghost h: nat)
      requires h < |stack| && stack[h] == current && Consistent()
      requires forall i, j :: 0 <= i < j < |stack| ==> stack[i] != stack[j]
      modifies `stack, `onStack, `components
      ensures At() == Pop(old(At()), h) && Consistent()
    {
      var component: set<Module> := {};
      ghost var whole := stack;
      while true
        invariant h < |stack| <= |whole| && stack == whole[..|stack|]
        invariant component == TopOf(whole, |stack|)
        invariant Consistent() && components == old(components)
        decreases |stack|
      {
        var member := stack[|stack| - 1];
        ghost var before := stack;
        stack := stack[..|stack| - 1];
        onStack := onStack - {member};
        assert before == stack + [member];
        component := component + {member};
        TopOfExtend(whole, |stack|);
        if member == current {
          break;
        }
      }
      components := components + [component];
    }
  }

  lemma OpenReach(g: Graph, open: set<Module>, x: Module, v: Module)
    requires HasEdge(g, x, v) && forall y :: y in open ==> Reach(g, y, x)
    ensures forall y :: y in open + {x} ==> Reach(g, y, v)
  {
    ReachEdge(g, x, v);
    forall y | y in open ensures Reach(g, y, v) {
      ReachTrans(g, y, x, v);
    }
  }
}
