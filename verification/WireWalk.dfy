/** The walk of the wire checker over two documents: errors accumulate in a list, visited pairs of
    locations in a set, and each pair is compared once even when `$ref`s form cycles. */
module WireWalk {
  import opened Wrappers
  import opened WireSchema
  import opened WireValidator
  import opened WireCompat

  type Places = set<(Location, Location)>

  // ----- where a comparison goes -----

  ghost predicate Exist(before: Document, after: Document, p: Location, q: Location) {
    NodeAt(before.root, p).Some? && NodeAt(after.root, q).Some?
  }

  /** Both places hold objects. */
  ghost predicate Objects(before: Document, after: Document, p: Location, q: Location) {
    Exist(before, after, p, q) && NodeAt(before.root, p).value.Node? && NodeAt(after.root, q).value.Node?
  }

  predicate SameRef(x: Schema, y: Schema)
    requires x.Node? && y.Node?
  {
    KRef in x.kw && Get(x.kw, KRef) == Get(y.kw, KRef)
  }

  ghost predicate Resolvable(before: Document, after: Document, x: Schema, y: Schema)
    requires x.Node? && y.Node?
  {
    Resolve(before, Get(x.kw, KRef)).Some? && Resolve(after, Get(y.kw, KRef)).Some?
  }

  /** A subschema both nodes have. Two `additionalProperties` are compared as nodes only when both are
      objects; otherwise the node's own check compares them. */
  predicate Descends(x: Schema, y: Schema, step: Step) {
    && ChildAt(x, step).Some? && ChildAt(y, step).Some?
    && (step == Child(KAdditional) ==> ChildAt(x, step).value.Node? && ChildAt(y, step).value.Node?)
  }

  ghost predicate StepLeads(x: Schema, y: Schema, p: Location, q: Location, p': Location, q': Location) {
    exists step :: Descends(x, y, step) && p' == p + [step] && q' == q + [step]
  }

  ghost predicate RefLeads(before: Document, after: Document, x: Schema, y: Schema, p': Location, q': Location)
    requires x.Node? && y.Node?
  {
    && SameRef(x, y) && Resolvable(before, after, x, y)
    && p' == Resolve(before, Get(x.kw, KRef)).value && q' == Resolve(after, Get(y.kw, KRef)).value
  }

  /** Comparing one pair of objects goes on to a subschema both have or to the targets of equal `$ref`s. */
  ghost predicate Leads(before: Document, after: Document, p: Location, q: Location, p': Location, q': Location) {
    && Objects(before, after, p, q)
    && var x, y := NodeAt(before.root, p).value, NodeAt(after.root, q).value;
       StepLeads(x, y, p, q, p', q') || RefLeads(before, after, x, y, p', q')
  }

  ghost predicate ArrivesIn(before: Document, after: Document, p: Location, q: Location, n: nat)
    decreases n
  {
    if n == 0 then p == [] && q == []
    else exists p0, q0 :: ArrivesIn(before, after, p0, q0, n - 1) && Leads(before, after, p0, q0, p, q)
  }

  /** The comparison of the two documents comes to this pair of places. */
  ghost predicate Arrives(before: Document, after: Document, p: Location, q: Location) {
    exists n: nat :: ArrivesIn(before, after, p, q, n)
  }

  lemma ArrivesRoot(before: Document, after: Document)
    ensures Arrives(before, after, [], [])
  {
    assert ArrivesIn(before, after, [], [], 0);
  }

  lemma ArrivesNext(before: Document, after: Document, p: Location, q: Location, p': Location, q': Location)
    requires Arrives(before, after, p, q) && Leads(before, after, p, q, p', q')
    ensures Arrives(before, after, p', q')
  {
    hide Leads;
    var n: nat :| ArrivesIn(before, after, p, q, n);
    assert ArrivesIn(before, after, p', q', n + 1);
  }

  lemma LeadsExist(before: Document, after: Document, p: Location, q: Location, p': Location, q': Location)
    requires Leads(before, after, p, q, p', q')
    ensures Exist(before, after, p', q')
  {
    hide SubAt;
    var x, y := NodeAt(before.root, p).value, NodeAt(after.root, q).value;
    if StepLeads(x, y, p, q, p', q') {
      var step :| Descends(x, y, step) && p' == p + [step] && q' == q + [step];
      NodeAtStep(before.root, p, step);
      NodeAtStep(after.root, q, step);
    }
  }

  lemma ArrivesExist(before: Document, after: Document, p: Location, q: Location)
    requires Arrives(before, after, p, q)
    ensures Exist(before, after, p, q)
  {
    hide Leads;
    var n: nat :| ArrivesIn(before, after, p, q, n);
    if n > 0 {
      var p0, q0 :| ArrivesIn(before, after, p0, q0, n - 1) && Leads(before, after, p0, q0, p, q);
      LeadsExist(before, after, p0, q0, p, q);
    }
  }

  /** Somewhere the comparison meets equal `$ref`s of which one does not resolve, and raises. */
  ghost predicate Stuck(before: Document, after: Document) {
    exists p, q :: Arrives(before, after, p, q) && StuckAt(before, after, p, q)
  }

  ghost predicate StuckAt(before: Document, after: Document, p: Location, q: Location) {
    && Objects(before, after, p, q)
    && var x, y := NodeAt(before.root, p).value, NodeAt(after.root, q).value;
       SameRef(x, y) && !Resolvable(before, after, x, y)
  }

  /** What is wrong with a pair of places in itself. */
  ghost function FaultsAt(before: Document, after: Document, p: Location, q: Location): set<Fault> {
    if !Exist(before, after, p, q) then {}
    else
      var x, y := NodeAt(before.root, p).value, NodeAt(after.root, q).value;
      if x.Node? && y.Node? then LocalFaults(x.kw, y.kw) else When(x != y, FlagChanged)
  }

  // ----- what a walk leaves behind -----

  /** One comparison of two places: of objects, or of places where one holds none. */
  datatype Visit = Pair(path: seq<Segment>, p: Location, q: Location) | Leaf(path: seq<Segment>, p: Location, q: Location)

  ghost predicate Tells(before: Document, after: Document, v: Visit, e: WireError) {
    e.path == v.path && e.fault in FaultsAt(before, after, v.p, v.q)
  }

  ghost function Weight(before: Document, after: Document, visits: seq<Visit>): nat {
    if visits == [] then 0
    else
      var n := |visits| - 1;
      Weight(before, after, visits[..n]) + |FaultsAt(before, after, visits[n].p, visits[n].q)|
  }

  /** The errors are exactly the faults of the visits, each told once. */
  ghost predicate Told(before: Document, after: Document, errors: seq<WireError>, visits: seq<Visit>) {
    && (forall e :: e in errors <==> exists v :: v in visits && Tells(before, after, v, e))
    && |errors| == Weight(before, after, visits)
  }

  lemma ToldMore(
    before: Document, after: Document, errors: seq<WireError>, visits: seq<Visit>, v: Visit, more: seq<WireError>
  )
    requires Told(before, after, errors, visits)
    requires forall e :: e in more <==> Tells(before, after, v, e)
    requires |more| == |FaultsAt(before, after, v.p, v.q)|
    ensures Told(before, after, errors + more, visits + [v])
  {
    hide Tells, FaultsAt;
    assert (visits + [v])[..|visits|] == visits;
  }

  ghost predicate IsVisited(visits: seq<Visit>, p: Location, q: Location) {
    exists path :: Pair(path, p, q) in visits
  }

  ghost predicate IsLeaf(visits: seq<Visit>, p: Location, q: Location) {
    exists path :: Leaf(path, p, q) in visits
  }

  predicate SamePair(v: Visit, w: Visit) {
    v.Pair? && w.Pair? && v.p == w.p && v.q == w.q
  }

  ghost predicate Proper(before: Document, after: Document, v: Visit) {
    Arrives(before, after, v.p, v.q) && (v.Pair? <==> Objects(before, after, v.p, v.q))
  }

  /** The seen pairs are the visited ones, each visited once, and every visit is to a place the
      comparison comes to. */
  ghost predicate Recorded(before: Document, after: Document, seen: Places, visits: seq<Visit>) {
    && (forall p, q :: (p, q) in seen <==> IsVisited(visits, p, q))
    && (forall i, j :: 0 <= i < j < |visits| ==> !SamePair(visits[i], visits[j]))
    && (forall v :: v in visits ==> Proper(before, after, v))
  }

  lemma RecordedMore(before: Document, after: Document, seen: Places, visits: seq<Visit>, v: Visit)
    requires Recorded(before, after, seen, visits) && Proper(before, after, v) && (v.Pair? ==> (v.p, v.q) !in seen)
    ensures Recorded(before, after, if v.Pair? then seen + {(v.p, v.q)} else seen, visits + [v])
  {
    hide Proper;
    var more := visits + [v];
    forall p, q ensures IsVisited(more, p, q) <==> IsVisited(visits, p, q) || (v.Pair? && v.p == p && v.q == q) {
      if path :| Pair(path, p, q) in visits { assert Pair(path, p, q) in more; }
      if v.Pair? && v.p == p && v.q == q { assert Pair(v.path, p, q) in more; }
    }
    forall i | 0 <= i < |visits| ensures !SamePair(visits[i], v) {
      if visits[i].Pair? {
        assert Pair(visits[i].path, visits[i].p, visits[i].q) in visits;
        assert IsVisited(visits, visits[i].p, visits[i].q);
      }
    }
  }

  /** The walk has dealt with a pair of places: as a visited pair, or as a place without two objects. */
  ghost predicate Met(before: Document, after: Document, seen: Places, visits: seq<Visit>, p: Location, q: Location) {
    if Objects(before, after, p, q) then (p, q) in seen else IsLeaf(visits, p, q)
  }

  /** Everything the pair leads to has been met. */
  ghost predicate Followed(before: Document, after: Document, seen: Places, visits: seq<Visit>, p: Location, q: Location) {
    && (forall p', q' :: Leads(before, after, p, q, p', q') ==> Met(before, after, seen, visits, p', q'))
    && !StuckAt(before, after, p, q)
  }

  lemma MetGrows(
    before: Document, after: Document, s: Places, t: Places, v: seq<Visit>, w: seq<Visit>, p: Location, q: Location
  )
    requires s <= t && v <= w && Met(before, after, s, v, p, q)
    ensures Met(before, after, t, w, p, q)
  {
    if !Objects(before, after, p, q) {
      var path :| Leaf(path, p, q) in v;
      assert Leaf(path, p, q) in w;
    }
  }

  /** The pairs of t that were not in s have been followed. */
  ghost predicate NewlyFollowed(before: Document, after: Document, s: Places, t: Places, visits: seq<Visit>) {
    forall p, q :: (p, q) in t && (p, q) !in s ==> Followed(before, after, t, visits, p, q)
  }

  lemma NewlyFollowedChain(
    before: Document, after: Document, s: Places, t: Places, u: Places, v: seq<Visit>, w: seq<Visit>
  )
    requires s <= t <= u && v <= w
    requires NewlyFollowed(before, after, s, t, v) && NewlyFollowed(before, after, t, u, w)
    ensures NewlyFollowed(before, after, s, u, w)
  {
    hide Leads, StuckAt, Met;
    forall p, q | (p, q) in u && (p, q) !in s ensures Followed(before, after, u, w, p, q) {
      if (p, q) in t {
        forall p', q' | Leads(before, after, p, q, p', q') ensures Met(before, after, u, w, p', q') {
          MetGrows(before, after, t, u, v, w, p', q');
        }
      }
    }
  }

  ghost function Universe(before: Document, after: Document): Places {
    set p, q | p in Locations(before.root) && q in Locations(after.root) :: (p, q)
  }

  lemma InUniverse(before: Document, after: Document, p: Location, q: Location)
    requires Exist(before, after, p, q)
    ensures (p, q) in Universe(before, after)
  {
    LocationsComplete(before.root, p);
    LocationsComplete(after.root, q);
  }

  /** The steps a comparison of two nodes descends by. */
  function DownSteps(x: Schema, y: Schema): (steps: set<Step>)
    requires x.Node? && y.Node?
    ensures forall step :: step in steps <==> Descends(x, y, step)
  {
    set step | step in CommonSteps(x, y) && Descends(x, y, step)
  }

  /** The steps both nodes have a subschema at. */
  function CommonSteps(x: Schema, y: Schema): (steps: set<Step>)
    requires x.Node? && y.Node?
    ensures forall step :: step in steps <==> ChildAt(x, step).Some? && ChildAt(y, step).Some?
  {
    (set k | k in x.kw && k in y.kw && x.kw[k].One? && y.kw[k].One? && Traversed(Child(k)) :: Child(k))
    + (set k, i: nat | k in x.kw && k in y.kw && x.kw[k].Many? && y.kw[k].Many?
         && 0 <= i < |x.kw[k].schemas| && i < |y.kw[k].schemas| && Traversed(Element(k, i)) :: Element(k, i))
    + (set k, n | k in x.kw && k in y.kw && x.kw[k].Named? && y.kw[k].Named?
         && n in x.kw[k].byName && n in y.kw[k].byName && Traversed(Entry(k, n)) :: Entry(k, n))
  }

  class Comparer {
    const before: Document
    const after: Document
    var errors: seq<WireError>
    var seen: Places
    ghost var visits: seq<Visit>

    constructor (before: Document, after: Document)
      ensures this.before == before && this.after == after
      ensures errors == [] && seen == {} && visits == [] && Valid()
    {
      this.before, this.after := before, after;
      errors, seen, visits := [], {}, [];
    }

    ghost predicate Valid()
      reads this
    {
      && seen <= Universe(before, after)
      && Recorded(before, after, seen, visits) && Told(before, after, errors, visits)
    }

    /** Append the faults of one node, each once. */
    method Report(path: seq<Segment>, faults: set<Fault>)
      modifies `errors
      ensures old(errors) <= errors && |errors| == |old(errors)| + |faults|
      ensures forall e :: e in errors[|old(errors)|..] <==> e.path == path && e.fault in faults
    {
      var left := faults;
      while left != {}
        invariant left <= faults && old(errors) <= errors && |errors| == |old(errors)| + |faults| - |left|
        invariant forall e :: e in errors[|old(errors)|..] <==> e.path == path && e.fault in faults && e.fault !in left
        decreases left
      {
        var fault :| fault in left;
        errors := errors + [WireError(path, fault)];
        assert errors[|old(errors)|..] == errors[|old(errors)|..|errors| - 1] + [WireError(path, fault)];
        left := left - {fault};
      }
    }

    /** Compare the nodes at two places; false when a `$ref` does not resolve and the comparison raises.
        Whatever it reports, it goes on: everything the newly seen pairs lead to is met. */
    method CompareNode(p: Location, q: Location, path: seq<Segment>) returns (ok: bool)
      requires Valid() && Arrives(before, after, p, q) && Exist(before, after, p, q)
      modifies this
      ensures Valid() && old(seen) <= seen && old(visits) <= visits && old(errors) <= errors
      ensures ok ==> Met(before, after, seen, visits, p, q) && NewlyFollowed(before, after, old(seen), seen, visits)
      ensures !ok ==> Stuck(before, after)
      decreases Universe(before, after) - seen, 1
    {
      hide LocalFaults, Recorded, Told, Universe, Leads, Arrives, StuckAt, NodeAt;
      var x, y := NodeAt(before.root, p).value, NodeAt(after.root, q).value;
      if x.Flag? || y.Flag? {
        ghost var v := Leaf(path, p, q);
        RecordedMore(before, after, seen, visits, v);
        ghost var more := if x != y then [WireError(path, FlagChanged)] else [];
        ToldMore(before, after, errors, visits, v, more);
        if x != y {
          errors := errors + [WireError(path, FlagChanged)];
        } else {
          assert errors + more == errors;
        }
        visits := visits + [v];
        assert v in visits;
        return true;
      }
      if (p, q) in seen {
        return true;
      }
      ok := ComparePair(p, q, path);
    }

    /** Compare a pair of objects not seen before: the node, its subschemas, its `$ref` target. */
    method ComparePair(p: Location, q: Location, path: seq<Segment>) returns (ok: bool)
      requires Valid() && Arrives(before, after, p, q) && Objects(before, after, p, q) && (p, q) !in seen
      modifies this
      ensures Valid() && old(seen) <= seen && old(visits) <= visits && old(errors) <= errors
      ensures ok ==> (p, q) in seen && NewlyFollowed(before, after, old(seen), seen, visits)
      ensures !ok ==> Stuck(before, after)
      decreases Universe(before, after) - seen, 0
    {
      hide LocalFaults, Recorded, Told, Universe, Leads, Arrives, NodeAt, NewlyFollowed, Met, Resolvable;
      var x, y := NodeAt(before.root, p).value, NodeAt(after.root, q).value;
      ghost var v := Pair(path, p, q);
      InUniverse(before, after, p, q);
      RecordedMore(before, after, seen, visits, v);
      seen := seen + {(p, q)};
      ghost var s := seen;
      Report(path, LocalFaults(x.kw, y.kw));
      ToldMore(before, after, old(errors), visits, v, errors[|old(errors)|..]);
      assert errors == old(errors) + errors[|old(errors)|..];
      visits := visits + [v];
      ok := CompareEach(p, q, DownSteps(x, y), path);
      if !ok {
        return;
      }
      ghost var t, w := seen, visits;
      if SameRef(x, y) {
        ok := CompareTargets(p, q, path);
      }
      if ok {
        PairDone(before, after, old(seen), s, t, seen, w, visits, p, q);
      }
    }

    /** Compare the subschemas at some common steps. */
    method CompareEach(p: Location, q: Location, steps: set<Step>, path: seq<Segment>) returns (ok: bool)
      requires Valid() && Arrives(before, after, p, q) && Objects(before, after, p, q)
      requires forall step :: step in steps ==> Descends(NodeAt(before.root, p).value, NodeAt(after.root, q).value, step)
      modifies this
      ensures Valid() && old(seen) <= seen && old(visits) <= visits && old(errors) <= errors
      ensures ok ==>
        && (forall step :: step in steps ==> Met(before, after, seen, visits, p + [step], q + [step]))
        && NewlyFollowed(before, after, old(seen), seen, visits)
      ensures !ok ==> Stuck(before, after)
      decreases Universe(before, after) - seen, 2
    {
      hide LocalFaults, NodeAt, Recorded, Told, Universe, Arrives, NewlyFollowed, Met, Exist, Descends;
      var left := steps;
      ok := true;
      NothingNew(before, after, seen, visits);
      while left != {}
        invariant left <= steps && ok && Valid()
        invariant old(seen) <= seen && old(visits) <= visits && old(errors) <= errors
        invariant forall step :: step in steps && step !in left ==> Met(before, after, seen, visits, p + [step], q + [step])
        invariant NewlyFollowed(before, after, old(seen), seen, visits)
        decreases left
      {
        var step :| step in left;
        assert Leads(before, after, p, q, p + [step], q + [step]);
        ArrivesNext(before, after, p, q, p + [step], q + [step]);
        LeadsExist(before, after, p, q, p + [step], q + [step]);
        ghost var t, w := seen, visits;
        ok := CompareNode(p + [step], q + [step], path + [Into(step)]);
        if !ok {
          return;
        }
        NewlyFollowedChain(before, after, old(seen), t, seen, w, visits);
        forall other | other in steps && other !in left ensures Met(before, after, seen, visits, p + [other], q + [other]) {
          MetGrows(before, after, t, seen, w, visits, p + [other], q + [other]);
        }
        left := left - {step};
      }
    }

    /** Compare the targets of equal `$ref`s. */
    method CompareTargets(p: Location, q: Location, path: seq<Segment>) returns (ok: bool)
      requires Valid() && Arrives(before, after, p, q) && Objects(before, after, p, q)
      requires SameRef(NodeAt(before.root, p).value, NodeAt(after.root, q).value)
      modifies this
      ensures Valid() && old(seen) <= seen && old(visits) <= visits && old(errors) <= errors
      ensures ok ==>
        && (forall p', q' :: RefLeads(before, after, NodeAt(before.root, p).value, NodeAt(after.root, q).value, p', q') ==>
              Met(before, after, seen, visits, p', q'))
        && !StuckAt(before, after, p, q)
        && NewlyFollowed(before, after, old(seen), seen, visits)
      ensures !ok ==> Stuck(before, after)
      decreases Universe(before, after) - seen, 2
    {
      hide LocalFaults, NodeAt, Recorded, Told, Universe, Arrives, NewlyFollowed, Met, Resolve;
      var x, y := NodeAt(before.root, p).value, NodeAt(after.root, q).value;
      var s, t := Resolve(before, Get(x.kw, KRef)), Resolve(after, Get(y.kw, KRef));
      if s.None? || t.None? {
        assert StuckAt(before, after, p, q);
        return false;
      }
      assert Leads(before, after, p, q, s.value, t.value);
      ArrivesNext(before, after, p, q, s.value, t.value);
      LeadsExist(before, after, p, q, s.value, t.value);
      ok := CompareNode(s.value, t.value, path + [ThroughRef]);
    }
  }

  lemma NothingNew(before: Document, after: Document, seen: Places, visits: seq<Visit>)
    ensures NewlyFollowed(before, after, seen, seen, visits)
  {}

  /** A pair is followed once its common subschemas and its `$ref` targets have been met. */
  lemma PairDone(
    before: Document, after: Document, r: Places, s: Places, t: Places, u: Places, w: seq<Visit>, z: seq<Visit>,
    p: Location, q: Location
  )
    requires Objects(before, after, p, q) && s == r + {(p, q)} && s <= t <= u && w <= z
    requires NewlyFollowed(before, after, s, t, w) && (NewlyFollowed(before, after, t, u, z) || (t == u && w == z))
    requires var x, y := NodeAt(before.root, p).value, NodeAt(after.root, q).value;
      && (forall step :: step in DownSteps(x, y) ==> Met(before, after, t, w, p + [step], q + [step]))
      && (SameRef(x, y) ==>
            !StuckAt(before, after, p, q)
            && forall p', q' :: RefLeads(before, after, x, y, p', q') ==> Met(before, after, u, z, p', q'))
    ensures NewlyFollowed(before, after, r, u, z)
  {
    hide NodeAt, Met, Resolvable, NewlyFollowed;
    var x, y := NodeAt(before.root, p).value, NodeAt(after.root, q).value;
    forall p', q' | Leads(before, after, p, q, p', q') ensures Met(before, after, u, z, p', q') {
      if StepLeads(x, y, p, q, p', q') {
        var step :| Descends(x, y, step) && p' == p + [step] && q' == q + [step];
        MetGrows(before, after, t, u, w, z, p', q');
      }
    }
    assert Followed(before, after, u, z, p, q);
    if !NewlyFollowed(before, after, t, u, z) {
      NothingNew(before, after, t, z);
    }
    NewlyFollowedChain(before, after, s, t, u, w, z);
    OneMoreFollowed(before, after, r, s, u, z, p, q);
  }

  lemma OneMoreFollowed(
    before: Document, after: Document, r: Places, s: Places, u: Places, z: seq<Visit>, p: Location, q: Location
  )
    requires s == r + {(p, q)} && NewlyFollowed(before, after, s, u, z) && Followed(before, after, u, z, p, q)
    ensures NewlyFollowed(before, after, r, u, z)
  {
    hide Followed;
  }

  // ----- the whole comparison -----

  /** If the roots are met and every seen pair is followed, every place the comparison comes to is met. */
  lemma {:induction false} AllMet(before: Document, after: Document, seen: Places, visits: seq<Visit>, p: Location, q: Location, n: nat)
    requires Met(before, after, seen, visits, [], []) && NewlyFollowed(before, after, {}, seen, visits)
    requires ArrivesIn(before, after, p, q, n)
    ensures Met(before, after, seen, visits, p, q)
    decreases n
  {
    hide Leads, StuckAt;
    if n > 0 {
      var p0, q0 :| ArrivesIn(before, after, p0, q0, n - 1) && Leads(before, after, p0, q0, p, q);
      AllMet(before, after, seen, visits, p0, q0, n - 1);
      LeadsFromObjects(before, after, p0, q0, p, q);
      assert (p0, q0) in seen;
    }
  }

  lemma LeadsFromObjects(before: Document, after: Document, p: Location, q: Location, p': Location, q': Location)
    requires Leads(before, after, p, q, p', q')
    ensures Objects(before, after, p, q)
  {}

  /** A finished walk has seen exactly the pairs of objects the comparison comes to, and told exactly
      the faults of the places it comes to. */
  ghost predicate Complete(before: Document, after: Document, seen: Places, errors: seq<WireError>) {
    && (forall p, q :: (p, q) in seen <==> Arrives(before, after, p, q) && Objects(before, after, p, q))
    && (forall fault :: HasFault(errors, fault) <==> FaultSomewhere(before, after, fault))
  }

  predicate HasFault(errors: seq<WireError>, fault: Fault) {
    exists i :: 0 <= i < |errors| && errors[i].fault == fault
  }

  ghost predicate FaultSomewhere(before: Document, after: Document, fault: Fault) {
    exists p, q :: Arrives(before, after, p, q) && fault in FaultsAt(before, after, p, q)
  }

  lemma WalkComplete(before: Document, after: Document, seen: Places, visits: seq<Visit>, errors: seq<WireError>)
    requires Recorded(before, after, seen, visits) && Told(before, after, errors, visits)
    requires Met(before, after, seen, visits, [], []) && NewlyFollowed(before, after, {}, seen, visits)
    ensures Complete(before, after, seen, errors) && !Stuck(before, after)
  {
    hide FaultsAt, StuckAt, Objects;
    forall p, q | Arrives(before, after, p, q)
      ensures Met(before, after, seen, visits, p, q)
      ensures IsVisited(visits, p, q) || IsLeaf(visits, p, q)
    {
      var n: nat :| ArrivesIn(before, after, p, q, n);
      AllMet(before, after, seen, visits, p, q, n);
    }
    forall p, q | (p, q) in seen ensures Arrives(before, after, p, q) && Objects(before, after, p, q) {
      var path :| Pair(path, p, q) in visits;
      assert Proper(before, after, Pair(path, p, q));
    }
    forall p, q | Arrives(before, after, p, q) ensures !StuckAt(before, after, p, q) {
      if Objects(before, after, p, q) {
        assert Followed(before, after, seen, visits, p, q);
      } else {
        NotStuck(before, after, p, q);
      }
    }
    FaultsTold(before, after, seen, visits, errors);
  }

  lemma NotStuck(before: Document, after: Document, p: Location, q: Location)
    requires !Objects(before, after, p, q)
    ensures !StuckAt(before, after, p, q)
  {}

  lemma FaultsTold(before: Document, after: Document, seen: Places, visits: seq<Visit>, errors: seq<WireError>)
    requires Recorded(before, after, seen, visits) && Told(before, after, errors, visits)
    requires forall p, q :: Arrives(before, after, p, q) ==> IsVisited(visits, p, q) || IsLeaf(visits, p, q)
    ensures forall fault :: HasFault(errors, fault) <==> FaultSomewhere(before, after, fault)
  {
    hide FaultsAt, Arrives, Objects;
    forall fault ensures HasFault(errors, fault) <==> FaultSomewhere(before, after, fault) {
      if HasFault(errors, fault) {
        var i :| 0 <= i < |errors| && errors[i].fault == fault;
        assert errors[i] in errors;
        var v :| v in visits && Tells(before, after, v, errors[i]);
        assert Proper(before, after, v);
      }
      if FaultSomewhere(before, after, fault) {
        var p, q :| Arrives(before, after, p, q) && fault in FaultsAt(before, after, p, q);
        var v: Visit :| v in visits && v.p == p && v.q == q;
        assert Tells(before, after, v, WireError(v.path, fault));
        assert WireError(v.path, fault) in errors;
      }
    }
  }

  // ----- silence and bisimulation -----

  ghost predicate FaultFree(before: Document, after: Document) {
    !Stuck(before, after) && forall p, q :: Arrives(before, after, p, q) ==> FaultsAt(before, after, p, q) == {}
  }

  /** The schemas at the pairs of places the comparison comes to. */
  ghost function Image(before: Document, after: Document): Pairs {
    set place | place in Universe(before, after) && Arrives(before, after, place.0, place.1) && Objects(before, after, place.0, place.1) ::
      (NodeAt(before.root, place.0).value, NodeAt(after.root, place.1).value)
  }

  lemma InImage(before: Document, after: Document, p: Location, q: Location)
    requires Arrives(before, after, p, q) && Objects(before, after, p, q)
    ensures (NodeAt(before.root, p).value, NodeAt(after.root, q).value) in Image(before, after)
  {
    hide NodeAt, Arrives, Universe;
    InUniverse(before, after, p, q);
    var place := (p, q);
    assert place in Universe(before, after);
  }

  lemma FromImage(before: Document, after: Document, x: Schema, y: Schema) returns (p: Location, q: Location)
    requires (x, y) in Image(before, after)
    ensures Arrives(before, after, p, q) && Objects(before, after, p, q)
    ensures NodeAt(before.root, p) == Some(x) && NodeAt(after.root, q) == Some(y)
  {
    hide NodeAt, Arrives, Universe;
    var place :| place in Universe(before, after) && Arrives(before, after, place.0, place.1)
      && Objects(before, after, place.0, place.1)
      && (x, y) == (NodeAt(before.root, place.0).value, NodeAt(after.root, place.1).value);
    p, q := place.0, place.1;
  }

  /** Where the comparison comes without finding a fault, the schemas are related. */
  lemma ArrivedRelated(before: Document, after: Document, p: Location, q: Location)
    requires FaultFree(before, after) && Arrives(before, after, p, q)
    ensures Exist(before, after, p, q)
    ensures Related(Image(before, after), NodeAt(before.root, p).value, NodeAt(after.root, q).value)
  {
    hide NodeAt, Arrives, LocalFaults, Image, Stuck;
    ArrivesExist(before, after, p, q);
    var x, y := NodeAt(before.root, p).value, NodeAt(after.root, q).value;
    if Objects(before, after, p, q) {
      InImage(before, after, p, q);
    } else {
      assert x != y ==> FlagChanged in FaultsAt(before, after, p, q);
    }
  }

  /** Without a fault anywhere, the pairs the comparison comes to form a bisimulation. */
  lemma ImageIsBisimulation(before: Document, after: Document)
    requires FaultFree(before, after)
    ensures Bisimulation(before, after, Image(before, after))
  {
    hide LocalFaults, FaultFree, Image, StepsRelated, RefsRelated, Arrives;
    var r := Image(before, after);
    forall x: Schema, y: Schema | (x, y) in r
      ensures x.Node? && y.Node? && IsNodeOf(before, x) && IsNodeOf(after, y) && LocalFaults(x.kw, y.kw) == {}
      ensures StepsRelated(r, x, y) && RefsRelated(before, after, r, x, y)
    {
      var p, q := FromImage(before, after, x, y);
      ArrivedIsSettled(before, after, p, q);
    }
  }

  lemma ArrivedIsSettled(before: Document, after: Document, p: Location, q: Location)
    requires FaultFree(before, after) && Arrives(before, after, p, q) && Objects(before, after, p, q)
    ensures var x, y := NodeAt(before.root, p).value, NodeAt(after.root, q).value;
      && LocalFaults(x.kw, y.kw) == {}
      && StepsRelated(Image(before, after), x, y) && RefsRelated(before, after, Image(before, after), x, y)
  {
    hide LocalFaults, Image, ChildAt, NodeAt, Arrives;
    var x, y := NodeAt(before.root, p).value, NodeAt(after.root, q).value;
    assert FaultsAt(before, after, p, q) == {};
    forall step | ChildAt(x, step).Some? && ChildAt(y, step).Some?
      ensures Related(Image(before, after), ChildAt(x, step).value, ChildAt(y, step).value)
    {
      if Descends(x, y, step) {
        assert Leads(before, after, p, q, p + [step], q + [step]);
        ArrivesNext(before, after, p, q, p + [step], q + [step]);
        ChildPlaces(before, after, p, q, step);
        ArrivedRelated(before, after, p + [step], q + [step]);
      } else {
        PolicyKept(x, y);
      }
    }
    RawEqual(x.kw, y.kw, KRef);
    if KRef in x.kw {
      assert !StuckAt(before, after, p, q);
      var s, t := Resolve(before, Get(x.kw, KRef)).value, Resolve(after, Get(y.kw, KRef)).value;
      assert Leads(before, after, p, q, s, t);
      ArrivesNext(before, after, p, q, s, t);
      ArrivedRelated(before, after, s, t);
    }
  }

  /** `additionalProperties` that are not both objects are equal where the node's own check is silent. */
  lemma PolicyKept(x: Schema, y: Schema)
    requires x.Node? && y.Node? && LocalFaults(x.kw, y.kw) == {}
    requires ChildAt(x, Child(KAdditional)).Some? && ChildAt(y, Child(KAdditional)).Some?
    requires ChildAt(x, Child(KAdditional)).value.Flag? || ChildAt(y, Child(KAdditional)).value.Flag?
    ensures ChildAt(x, Child(KAdditional)) == ChildAt(y, Child(KAdditional))
  {
    hide LocalFaults;
    PropertiesGrow(x.kw, y.kw);
  }

  lemma ChildPlaces(before: Document, after: Document, p: Location, q: Location, step: Step)
    requires Exist(before, after, p, q)
    requires ChildAt(NodeAt(before.root, p).value, step).Some? && ChildAt(NodeAt(after.root, q).value, step).Some?
    ensures NodeAt(before.root, p + [step]) == ChildAt(NodeAt(before.root, p).value, step)
    ensures NodeAt(after.root, q + [step]) == ChildAt(NodeAt(after.root, q).value, step)
  {
    hide NodeAt, SubAt;
    NodeAtStep(before.root, p, step);
    NodeAtStep(after.root, q, step);
  }

  /** Whatever the comparison comes to is related by every bisimulation that relates the roots. */
  lemma {:induction false} ArrivedInGuess(before: Document, after: Document, guess: Pairs, p: Location, q: Location, n: nat)
    requires Bisimulation(before, after, guess) && Related(guess, before.root, after.root)
    requires ArrivesIn(before, after, p, q, n)
    ensures Exist(before, after, p, q) && Related(guess, NodeAt(before.root, p).value, NodeAt(after.root, q).value)
    decreases n
  {
    hide LocalFaults, Bisimulation, NodeAt, ChildAt, Leads;
    if n == 0 {
      RootPlaces(before, after);
    } else {
      var p0, q0 :| ArrivesIn(before, after, p0, q0, n - 1) && Leads(before, after, p0, q0, p, q);
      ArrivedInGuess(before, after, guess, p0, q0, n - 1);
      LedInGuess(before, after, guess, p0, q0, p, q);
    }
  }

  lemma RootPlaces(before: Document, after: Document)
    ensures NodeAt(before.root, []) == Some(before.root) && NodeAt(after.root, []) == Some(after.root)
  {}

  lemma LedInGuess(before: Document, after: Document, guess: Pairs, p: Location, q: Location, p': Location, q': Location)
    requires Bisimulation(before, after, guess) && Leads(before, after, p, q, p', q')
    requires Related(guess, NodeAt(before.root, p).value, NodeAt(after.root, q).value)
    ensures Exist(before, after, p', q') && Related(guess, NodeAt(before.root, p').value, NodeAt(after.root, q').value)
  {
    hide LocalFaults, NodeAt, ChildAt, Bisimulation, SubAt;
    var x, y := NodeAt(before.root, p).value, NodeAt(after.root, q).value;
    GuessFacts(before, after, guess, x, y);
    if StepLeads(x, y, p, q, p', q') {
      var step :| Descends(x, y, step) && p' == p + [step] && q' == q + [step];
      ChildPlaces(before, after, p, q, step);
    }
  }

  lemma GuessFacts(before: Document, after: Document, guess: Pairs, x: Schema, y: Schema)
    requires Bisimulation(before, after, guess) && (x, y) in guess
    ensures x.Node? && y.Node? && LocalFaults(x.kw, y.kw) == {}
    ensures StepsRelated(guess, x, y) && RefsRelated(before, after, guess, x, y)
  {
    hide LocalFaults, StepsRelated, RefsRelated;
  }

  /** Documents some bisimulation relates give no fault anywhere. */
  lemma CompatibleIsFaultFree(before: Document, after: Document)
    requires Compatible(before, after)
    ensures FaultFree(before, after)
  {
    hide LocalFaults, Bisimulation, NodeAt, Resolve;
    var guess :| Bisimulation(before, after, guess) && Related(guess, before.root, after.root);
    forall p, q | Arrives(before, after, p, q)
      ensures FaultsAt(before, after, p, q) == {} && !StuckAt(before, after, p, q)
    {
      var n: nat :| ArrivesIn(before, after, p, q, n);
      ArrivedInGuess(before, after, guess, p, q, n);
      if Objects(before, after, p, q) {
        GuessFacts(before, after, guess, NodeAt(before.root, p).value, NodeAt(after.root, q).value);
      }
    }
  }

  lemma FaultFreeIsCompatible(before: Document, after: Document)
    requires FaultFree(before, after)
    ensures Compatible(before, after)
  {
    hide FaultFree, Bisimulation, Image, Arrives, NodeAt;
    ImageIsBisimulation(before, after);
    ArrivesRoot(before, after);
    RootPlaces(before, after);
    ArrivedRelated(before, after, [], []);
  }

  /** The comparison of two documents. It raises (`ok` is false) exactly when it meets a `$ref` that
      does not resolve; otherwise it has seen exactly the pairs it comes to, each once, and reported
      exactly their faults. It is silent exactly when some bisimulation relates the documents. */
  method CompatibilityErrors(before: Document, after: Document)
    returns (ok: bool, errors: seq<WireError>, ghost seen: Places, ghost visits: seq<Visit>)
    ensures ok <==> !Stuck(before, after)
    ensures ok ==> Complete(before, after, seen, errors)
    ensures Recorded(before, after, seen, visits) && Told(before, after, errors, visits)
    ensures ok && errors == [] <==> Compatible(before, after)
  {
    hide Recorded, Told, NewlyFollowed, Met, Stuck, FaultFree, Compatible, Arrives, NodeAt;
    var comparer := new Comparer(before, after);
    ArrivesRoot(before, after);
    RootPlaces(before, after);
    ok := comparer.CompareNode([], [], []);
    errors, seen, visits := comparer.errors, comparer.seen, comparer.visits;
    if ok {
      WalkComplete(before, after, seen, visits, errors);
      SilentIffFaultFree(before, after, seen, errors);
    }
    if FaultFree(before, after) {
      FaultFreeIsCompatible(before, after);
    }
    if Compatible(before, after) {
      CompatibleIsFaultFree(before, after);
      FreeIsNotStuck(before, after);
    }
  }

  lemma FreeIsNotStuck(before: Document, after: Document)
    requires FaultFree(before, after)
    ensures !Stuck(before, after)
  {}

  lemma SilentIffFaultFree(before: Document, after: Document, seen: Places, errors: seq<WireError>)
    requires Complete(before, after, seen, errors) && !Stuck(before, after)
    ensures errors == [] <==> FaultFree(before, after)
  {
    hide FaultsAt, Arrives, Stuck;
    if errors != [] {
      assert HasFault(errors, errors[0].fault);
    }
    if errors == [] {
      forall p, q | Arrives(before, after, p, q) ensures FaultsAt(before, after, p, q) == {} {
        forall fault ensures fault !in FaultsAt(before, after, p, q) {
          assert !HasFault(errors, fault);
        }
      }
    }
  }
}
