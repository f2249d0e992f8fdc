/** Which documents have a verdict: those whose `$ref`s all resolve and never lead back in place. */
module WireSettling {
  import opened Wrappers
  import opened WireSchema
  import opened WireValidator
  import opened WireCompat
  import opened WireWalk
  import opened WireSoundness

  // ----- references that lead back -----

  ghost predicate RefersTo(d: Document, a: Location, b: Location) {
    var s := NodeAt(d.root, a);
    s.Some? && s.value.Node? && KRef in s.value.kw && Resolve(d, Get(s.value.kw, KRef)) == Some(b)
  }

  /** From a place to another that is applied to the same instance. */
  ghost predicate GoesInPlace(d: Document, a: Location, b: Location) {
    RefersTo(d, a, b) || exists step :: (InPlaceStep(step) || step == Child(KNot)) && b == a + [step]
  }

  ghost predicate ComesIn(d: Document, a: Location, b: Location, n: nat)
    decreases n
  {
    if n == 0 then a == b else exists w :: ComesIn(d, a, w, n - 1) && GoesInPlace(d, w, b)
  }

  /** In place, in any number of steps. */
  ghost predicate Comes(d: Document, a: Location, b: Location) {
    exists n: nat :: ComesIn(d, a, b, n)
  }

  /** Every `$ref` resolves, and none leads, in place, back to a place it came from. */
  ghost predicate NeverReturns(d: Document) {
    && (forall a :: NodeAt(d.root, a).Some? && NodeAt(d.root, a).value.Node? && KRef in NodeAt(d.root, a).value.kw ==>
          Resolve(d, Get(NodeAt(d.root, a).value.kw, KRef)).Some?)
    && (forall a, b :: RefersTo(d, b, a) ==> !Comes(d, a, b))
  }

  lemma ComesOn(d: Document, a: Location, b: Location, c: Location)
    requires Comes(d, a, b) && GoesInPlace(d, b, c)
    ensures Comes(d, a, c)
  {
    hide GoesInPlace;
    var n: nat :| ComesIn(d, a, b, n);
    assert ComesIn(d, a, c, n + 1);
  }

  // ----- how deep an instance is -----

  ghost predicate Within(inst: Json, h: nat) {
    match inst
    case Obj(m) => h > 0 && forall n :: n in m ==> Within(m[n], h - 1)
    case Arr(items) => h > 0 && forall i :: 0 <= i < |items| ==> Within(items[i], h - 1)
    case _ => true
  }

  lemma {:induction false} WithinMore(inst: Json, h: nat, more: nat)
    requires Within(inst, h) && h <= more
    ensures Within(inst, more)
  {
    match inst
    case Obj(m) =>
      forall n | n in m ensures Within(m[n], more - 1) { WithinMore(m[n], h - 1, more - 1); }
    case Arr(items) =>
      forall i | 0 <= i < |items| ensures Within(items[i], more - 1) { WithinMore(items[i], h - 1, more - 1); }
    case _ =>
  }

  lemma {:induction false} HasDepth(inst: Json) returns (h: nat)
    ensures Within(inst, h)
    decreases inst, 1
  {
    h := 0;
    match inst
    case Obj(m) => h := MembersHaveDepth(inst, m.Keys); h := h + 1;
    case Arr(items) => h := ItemsHaveDepth(inst, |items|); h := h + 1;
    case _ =>
  }

  lemma {:induction false} MembersHaveDepth(inst: Json, names: set<string>) returns (h: nat)
    requires inst.Obj? && names <= inst.members.Keys
    ensures forall n :: n in names ==> Within(inst.members[n], h)
    decreases inst, 0, |names|
  {
    h := 0;
    if names != {} {
      var n :| n in names;
      var rest := MembersHaveDepth(inst, names - {n});
      var own := HasDepth(inst.members[n]);
      h := rest + own;
      forall k | k in names ensures Within(inst.members[k], h) {
        WithinMore(inst.members[k], if k == n then own else rest, h);
      }
    }
  }

  lemma {:induction false} ItemsHaveDepth(inst: Json, count: nat) returns (h: nat)
    requires inst.Arr? && count <= |inst.items|
    ensures forall i :: 0 <= i < count ==> Within(inst.items[i], h)
    decreases inst, 0, count
  {
    h := 0;
    if count > 0 {
      var rest := ItemsHaveDepth(inst, count - 1);
      var own := HasDepth(inst.items[count - 1]);
      h := rest + own;
      forall k | 0 <= k < count ensures Within(inst.items[k], h) {
        WithinMore(inst.items[k], if k == count - 1 then own else rest, h);
      }
    }
  }

  // ----- two readings that are deep enough -----

  datatype Readings = Readings(d: Document, v: Vocabulary, f: nat, fb: bool, g: nat, gb: bool)

  ghost predicate Alike(c: Readings, s: Schema, inst: Json) {
    Accepts(c.d, c.v, c.f, c.fb, s, inst) == Accepts(c.d, c.v, c.g, c.gb, s, inst)
  }

  ghost predicate MarksAlike(c: Readings, s: Schema, inst: Json, mark: Mark, outside: bool) {
    Evaluates(c.d, c.v, c.f, c.fb, s, inst, mark, outside) == Evaluates(c.d, c.v, c.g, c.gb, s, inst, mark, outside)
  }

  /** References one may follow in place before there are no new targets left, for each level of the instance. */
  ghost function Enough(d: Document, h: nat, seen: set<Location>): int {
    h * (|Locations(d.root)| + 1) + |Locations(d.root)| - |seen|
  }

  /** The readings stand at a place of the document, past these targets, with an instance of some depth. */
  ghost predicate Ready(c: Readings, at: Location, s: Schema, inst: Json, h: nat, seen: set<Location>) {
    && NeverReturns(c.d) && NodeAt(c.d.root, at) == Some(s) && Within(inst, h)
    && seen <= Locations(c.d.root) && (forall x :: x in seen ==> Comes(c.d, x, at))
    && Enough(c.d, h, seen) <= c.f && Enough(c.d, h, seen) <= c.g
  }

  lemma ReadyHere(c: Readings, at: Location, s: Schema, inst: Json, h: nat, seen: set<Location>, step: Step)
    requires Ready(c, at, s, inst, h, seen) && ChildAt(s, step).Some? && (InPlaceStep(step) || step == Child(KNot))
    ensures Ready(c, at + [step], ChildAt(s, step).value, inst, h, seen)
  {
    hide NeverReturns, Enough, NodeAt;
    NodeAtStep(c.d.root, at, step);
    assert GoesInPlace(c.d, at, at + [step]);
    forall x | x in seen ensures Comes(c.d, x, at + [step]) {
      ComesOn(c.d, x, at, at + [step]);
    }
  }

  lemma ReadyBelow(c: Readings, at: Location, s: Schema, inst: Json, h: nat, seen: set<Location>, step: Step, part: Json)
    requires Ready(c, at, s, inst, h, seen) && ChildAt(s, step).Some? && h > 0 && Within(part, h - 1)
    ensures Ready(c, at + [step], ChildAt(s, step).value, part, h - 1, {})
  {
    hide NeverReturns, NodeAt;
    NodeAtStep(c.d.root, at, step);
    EnoughBelow(c.d, h, seen);
  }

  lemma EnoughBelow(d: Document, h: nat, seen: set<Location>)
    requires h > 0 && seen <= Locations(d.root)
    ensures Enough(d, h - 1, {}) <= Enough(d, h, seen)
  {
    SubsetCount(seen, Locations(d.root));
    var n := |Locations(d.root)|;
    assert h * (n + 1) == (h - 1) * (n + 1) + n + 1;
  }

  lemma {:induction false} SubsetCount(a: set<Location>, b: set<Location>)
    requires a <= b
    ensures |a| <= |b|
    decreases |a|
  {
    if a != {} {
      var x :| x in a;
      SubsetCount(a - {x}, b - {x});
    }
  }

  /** There is a target to follow, and it is a new one. */
  lemma TargetIsNew(c: Readings, at: Location, s: Schema, inst: Json, h: nat, seen: set<Location>) returns (to: Location)
    requires Ready(c, at, s, inst, h, seen) && s.Node? && KRef in s.kw
    ensures Resolve(c.d, Get(s.kw, KRef)) == Some(to) && RefersTo(c.d, at, to)
    ensures to in Locations(c.d.root) - seen && NodeAt(c.d.root, to) == Target(c.d, Get(s.kw, KRef))
  {
    hide Comes, Within, Enough, Locations, NodeAt;
    to := Resolve(c.d, Get(s.kw, KRef)).value;
    assert RefersTo(c.d, at, to);
    LocationsComplete(c.d.root, to);
  }

  lemma ReadyRef(c: Readings, at: Location, s: Schema, inst: Json, h: nat, seen: set<Location>) returns (to: Location)
    requires Ready(c, at, s, inst, h, seen) && s.Node? && KRef in s.kw
    ensures c.f > 0 && c.g > 0 && Target(c.d, Get(s.kw, KRef)).Some?
    ensures Ready(c.(f := c.f - 1, g := c.g - 1), to, Target(c.d, Get(s.kw, KRef)).value, inst, h, seen + {to})
  {
    hide Comes, GoesInPlace, NeverReturns, Within, Locations, NodeAt, Enough, RefersTo;
    to := TargetIsNew(c, at, s, inst, h, seen);
    EnoughOn(c.d, h, seen, to);
    GoesByRef(c.d, at, to);
    forall x | x in seen ensures Comes(c.d, x, to) {
      ComesOn(c.d, x, at, to);
    }
    ComesRefl(c.d, to);
  }

  lemma EnoughOn(d: Document, h: nat, seen: set<Location>, to: Location)
    requires seen <= Locations(d.root) && to in Locations(d.root) - seen
    ensures Enough(d, h, seen + {to}) == Enough(d, h, seen) - 1 >= 0
  {
    hide Locations;
    SubsetCount(seen + {to}, Locations(d.root));
  }

  lemma GoesByRef(d: Document, a: Location, b: Location)
    requires RefersTo(d, a, b)
    ensures GoesInPlace(d, a, b)
  {}

  lemma ComesRefl(d: Document, a: Location)
    ensures Comes(d, a, a)
  {
    assert ComesIn(d, a, a, 0);
  }

  // ----- the induction over fuel and structure -----

  lemma {:induction false} Same(c: Readings, at: Location, s: Schema, inst: Json, h: nat, seen: set<Location>)
    requires Ready(c, at, s, inst, h, seen)
    ensures Alike(c, s, inst)
    decreases c.f, s, 9
  {
    hide Ready, Holds;
    if s.Node? {
      forall k ensures Present(c.d, c.v, c.f, c.fb, s, k, inst) == Present(c.d, c.v, c.g, c.gb, s, k, inst) {
        if k in s.kw {
          SameKey(c, at, s, k, inst, h, seen);
        }
      }
      AllPresent(c.d, c.v, c.f, c.fb, s, inst);
      AllPresent(c.d, c.v, c.g, c.gb, s, inst);
    }
  }

  /** Which part of the meaning a keyword has. */
  lemma HoldsBy(d: Document, v: Vocabulary, fuel: nat, bottom: bool, s: Schema, k: Key, inst: Json)
    requires s.Node? && k in s.kw && !Passive(k)
    ensures k.KRef? ==> Holds(d, v, fuel, bottom, s, k, inst) == HoldsRef(d, v, fuel, bottom, s, inst)
    ensures !k.KRef? && s.kw[k].Data? ==> Holds(d, v, fuel, bottom, s, k, inst) == HoldsData(v, s.kw, k, s.kw[k].json, inst)
    ensures !k.KRef? && s.kw[k].One? ==>
      Holds(d, v, fuel, bottom, s, k, inst) == HoldsOne(d, v, fuel, bottom, s, k, s.kw[k].schema, inst)
    ensures !k.KRef? && s.kw[k].Many? ==>
      Holds(d, v, fuel, bottom, s, k, inst) == HoldsMany(d, v, fuel, bottom, s, k, s.kw[k].schemas, inst)
    ensures !k.KRef? && s.kw[k].Named? ==>
      Holds(d, v, fuel, bottom, s, k, inst) == HoldsNamed(d, v, fuel, bottom, s, k, s.kw[k].byName, inst)
  {
    hide HoldsRef, HoldsOne, HoldsMany, HoldsNamed, HoldsData, Accepts;
  }

  lemma PassiveHolds(d: Document, v: Vocabulary, fuel: nat, bottom: bool, s: Schema, k: Key, inst: Json)
    requires s.Node? && Passive(k)
    ensures Holds(d, v, fuel, bottom, s, k, inst)
  {}

  lemma {:induction false} SameKey(c: Readings, at: Location, s: Schema, k: Key, inst: Json, h: nat, seen: set<Location>)
    requires Ready(c, at, s, inst, h, seen) && s.Node? && k in s.kw
    ensures Holds(c.d, c.v, c.f, c.fb, s, k, inst) == Holds(c.d, c.v, c.g, c.gb, s, k, inst)
    decreases c.f, s, 8
  {
    hide *;
    if Passive(k) {
      PassiveHolds(c.d, c.v, c.f, c.fb, s, k, inst);
      PassiveHolds(c.d, c.v, c.g, c.gb, s, k, inst);
    } else {
      HoldsBy(c.d, c.v, c.f, c.fb, s, k, inst);
      HoldsBy(c.d, c.v, c.g, c.gb, s, k, inst);
      if k.KRef? {
        SameReference(c, at, s, inst, h, seen);
      } else {
        match s.kw[k] {
          case Data(_) =>
          case One(x) => SameSingle(c, at, s, k, x, inst, h, seen);
          case Many(xs) => SameList(c, at, s, k, xs, inst, h, seen);
          case Named(m) => SameMap(c, at, s, k, m, inst, h, seen);
        }
      }
    }
  }

  lemma {:induction false} SameReference(c: Readings, at: Location, s: Schema, inst: Json, h: nat, seen: set<Location>)
    requires Ready(c, at, s, inst, h, seen) && s.Node? && KRef in s.kw
    ensures HoldsRef(c.d, c.v, c.f, c.fb, s, inst) == HoldsRef(c.d, c.v, c.g, c.gb, s, inst)
    decreases c.f, s, 7
  {
    hide Ready, Accepts, Target;
    var to := ReadyRef(c, at, s, inst, h, seen);
    Same(c.(f := c.f - 1, g := c.g - 1), to, Target(c.d, Get(s.kw, KRef)).value, inst, h, seen + {to});
  }

  lemma {:induction false} ChildHere(c: Readings, at: Location, s: Schema, step: Step, inst: Json, h: nat, seen: set<Location>)
    requires Ready(c, at, s, inst, h, seen) && ChildAt(s, step).Some? && (InPlaceStep(step) || step == Child(KNot))
    ensures Alike(c, ChildAt(s, step).value, inst)
    decreases c.f, s, 0
  {
    hide Ready, Accepts;
    ReadyHere(c, at, s, inst, h, seen, step);
    Same(c, at + [step], ChildAt(s, step).value, inst, h, seen);
  }

  lemma {:induction false} ChildBelow(c: Readings, at: Location, s: Schema, step: Step, inst: Json, part: Json, h: nat, seen: set<Location>)
    requires Ready(c, at, s, inst, h, seen) && ChildAt(s, step).Some? && h > 0 && Within(part, h - 1)
    ensures Alike(c, ChildAt(s, step).value, part)
    decreases c.f, s, 0
  {
    hide Ready, Accepts;
    ReadyBelow(c, at, s, inst, h, seen, step, part);
    Same(c, at + [step], ChildAt(s, step).value, part, h - 1, {});
  }

  lemma ReadyDepth(c: Readings, at: Location, s: Schema, inst: Json, h: nat, seen: set<Location>)
    requires Ready(c, at, s, inst, h, seen)
    ensures inst.Obj? || inst.Arr? ==> h > 0
    ensures inst.Obj? ==> forall n :: n in inst.members ==> Within(inst.members[n], h - 1) && Within(Str(n), h - 1)
    ensures inst.Arr? ==> forall i :: 0 <= i < |inst.items| ==> Within(inst.items[i], h - 1)
  {
    hide NeverReturns, Comes, NodeAt, Enough;
  }

  lemma {:induction false} SameSingle(c: Readings, at: Location, s: Schema, k: Key, x: Schema, inst: Json, h: nat, seen: set<Location>)
    requires Ready(c, at, s, inst, h, seen) && s.Node? && k in s.kw && s.kw[k] == One(x) && !Passive(k) && !k.KRef?
    ensures HoldsOne(c.d, c.v, c.f, c.fb, s, k, x, inst) == HoldsOne(c.d, c.v, c.g, c.gb, s, k, x, inst)
    decreases c.f, s, 7
  {
    hide Ready, Accepts, Evaluates, Within, IsAdditional;
    ReadyDepth(c, at, s, inst, h, seen);
    if k.KNot? {
      ChildHere(c, at, s, Child(k), inst, h, seen);
    } else if k.KIf? {
      ChildHere(c, at, s, Child(k), inst, h, seen);
      if ChildAt(s, Child(KThen)).Some? { ChildHere(c, at, s, Child(KThen), inst, h, seen); }
      if ChildAt(s, Child(KElse)).Some? { ChildHere(c, at, s, Child(KElse), inst, h, seen); }
    } else if k.KContains? && inst.Arr? {
      SameTally(c, at, s, x, inst, h, seen);
    } else if k.KPropertyNames? && inst.Obj? {
      forall n | n in inst.members ensures Alike(c, x, Str(n)) {
        ChildBelow(c, at, s, Child(k), inst, Str(n), h, seen);
      }
    } else if (k.KAdditional? || k.KUnevaluatedProperties?) && inst.Obj? {
      forall n | n in inst.members
        ensures Alike(c, x, inst.members[n]) && MarksAlike(c, s, inst, Member(n), false)
      {
        ChildBelow(c, at, s, Child(k), inst, inst.members[n], h, seen);
        SameMark(c, at, s, inst, Member(n), false, h, seen);
      }
    } else if (k.KItems? || k.KUnevaluatedItems?) && inst.Arr? {
      forall i: nat | i < |inst.items|
        ensures Alike(c, x, inst.items[i]) && MarksAlike(c, s, inst, Item(i), false)
      {
        ChildBelow(c, at, s, Child(k), inst, inst.items[i], h, seen);
        SameMark(c, at, s, inst, Item(i), false, h, seen);
      }
    }
  }

  lemma {:induction false} SameTally(c: Readings, at: Location, s: Schema, x: Schema, inst: Json, h: nat, seen: set<Location>)
    requires Ready(c, at, s, inst, h, seen) && s.Node? && KContains in s.kw && s.kw[KContains] == One(x) && inst.Arr?
    ensures ItemsAccepted(c.d, c.v, c.f, c.fb, s, x, inst.items) == ItemsAccepted(c.d, c.v, c.g, c.gb, s, x, inst.items)
    decreases c.f, s, 6
  {
    hide Ready, Accepts, Within;
    ReadyDepth(c, at, s, inst, h, seen);
    forall i | 0 <= i < |inst.items| ensures Alike(c, x, inst.items[i]) {
      ChildBelow(c, at, s, Child(KContains), inst, inst.items[i], h, seen);
    }
  }

  lemma {:induction false} SameList(c: Readings, at: Location, s: Schema, k: Key, xs: seq<Schema>, inst: Json, h: nat, seen: set<Location>)
    requires Ready(c, at, s, inst, h, seen) && s.Node? && k in s.kw && s.kw[k] == Many(xs)
    ensures HoldsMany(c.d, c.v, c.f, c.fb, s, k, xs, inst) == HoldsMany(c.d, c.v, c.g, c.gb, s, k, xs, inst)
    decreases c.f, s, 7
  {
    hide Ready, Accepts, Within;
    ReadyDepth(c, at, s, inst, h, seen);
    if k.KAllOf? || k.KAnyOf? || k.KOneOf? {
      forall i | 0 <= i < |xs| ensures Alike(c, xs[i], inst) {
        ChildHere(c, at, s, Element(k, i), inst, h, seen);
      }
      assert BranchesAccepting(c.d, c.v, c.f, c.fb, s, k, xs, inst) == BranchesAccepting(c.d, c.v, c.g, c.gb, s, k, xs, inst);
    } else if k.KPrefixItems? && inst.Arr? {
      forall i | 0 <= i < |xs| && i < |inst.items| ensures Alike(c, xs[i], inst.items[i]) {
        ChildBelow(c, at, s, Element(k, i), inst, inst.items[i], h, seen);
      }
    }
  }

  lemma {:induction false} SameMap(c: Readings, at: Location, s: Schema, k: Key, m: map<string, Schema>, inst: Json, h: nat, seen: set<Location>)
    requires Ready(c, at, s, inst, h, seen) && s.Node? && k in s.kw && s.kw[k] == Named(m)
    ensures HoldsNamed(c.d, c.v, c.f, c.fb, s, k, m, inst) == HoldsNamed(c.d, c.v, c.g, c.gb, s, k, m, inst)
    decreases c.f, s, 7
  {
    hide Ready, Accepts, Within;
    ReadyDepth(c, at, s, inst, h, seen);
    if k.KDependentSchemas? {
      forall n | n in m ensures Alike(c, m[n], inst) {
        ChildHere(c, at, s, Entry(k, n), inst, h, seen);
      }
    } else if (k.KProperties? || k.KPatternProperties?) && inst.Obj? {
      forall p, n | p in m && n in inst.members ensures Alike(c, m[p], inst.members[n]) {
        ChildBelow(c, at, s, Entry(k, p), inst, inst.members[n], h, seen);
      }
    }
  }

  // ----- the parts that count as evaluated -----

  lemma {:induction false} SameMark(c: Readings, at: Location, s: Schema, inst: Json, mark: Mark, outside: bool, h: nat, seen: set<Location>)
    requires Ready(c, at, s, inst, h, seen)
    ensures MarksAlike(c, s, inst, mark, outside)
    decreases c.f, s, 4
  {
    hide Ready, Accepts, LooksAt, ContainsMatches, EvaluatesThroughRef, EvaluatesAt;
    if s.Node? {
      SameContained(c, at, s, inst, mark, h, seen);
      SameReferred(c, at, s, inst, mark, h, seen);
      forall step
        ensures EvaluatesAt(c.d, c.v, c.f, c.fb, s, inst, mark, step) == EvaluatesAt(c.d, c.v, c.g, c.gb, s, inst, mark, step)
      {
        SameApplied(c, at, s, inst, mark, step, h, seen);
      }
      EvaluatesIs(c.d, c.v, c.f, c.fb, s, inst, mark, outside);
      EvaluatesIs(c.d, c.v, c.g, c.gb, s, inst, mark, outside);
    }
  }

  lemma {:induction false} SameContained(c: Readings, at: Location, s: Schema, inst: Json, mark: Mark, h: nat, seen: set<Location>)
    requires Ready(c, at, s, inst, h, seen)
    ensures ContainsMatches(c.d, c.v, c.f, c.fb, s, inst, mark) == ContainsMatches(c.d, c.v, c.g, c.gb, s, inst, mark)
    decreases c.f, s, 3
  {
    hide Ready, Accepts, Within;
    ReadyDepth(c, at, s, inst, h, seen);
    if mark.Item? && inst.Arr? && mark.index < |inst.items| && ChildAt(s, Child(KContains)).Some? {
      ChildBelow(c, at, s, Child(KContains), inst, inst.items[mark.index], h, seen);
    }
  }

  lemma {:induction false} SameReferred(c: Readings, at: Location, s: Schema, inst: Json, mark: Mark, h: nat, seen: set<Location>)
    requires Ready(c, at, s, inst, h, seen) && s.Node?
    ensures EvaluatesThroughRef(c.d, c.v, c.f, c.fb, s, inst, mark) == EvaluatesThroughRef(c.d, c.v, c.g, c.gb, s, inst, mark)
    decreases c.f, s, 3
  {
    hide Ready, Accepts, Evaluates, Target;
    if KRef in s.kw {
      var to := ReadyRef(c, at, s, inst, h, seen);
      var less, t := c.(f := c.f - 1, g := c.g - 1), Target(c.d, Get(s.kw, KRef)).value;
      Same(less, to, t, inst, h, seen + {to});
      SameMark(less, to, t, inst, mark, true, h, seen + {to});
    }
  }

  lemma {:induction false} SameApplied(c: Readings, at: Location, s: Schema, inst: Json, mark: Mark, step: Step, h: nat, seen: set<Location>)
    requires Ready(c, at, s, inst, h, seen)
    ensures EvaluatesAt(c.d, c.v, c.f, c.fb, s, inst, mark, step) == EvaluatesAt(c.d, c.v, c.g, c.gb, s, inst, mark, step)
    decreases c.f, s, 3
  {
    hide Ready, Accepts, Evaluates, ChildAt;
    if ChildAt(s, step).Some? && InPlace(step, inst) {
      assert InPlaceStep(step);
      ChildHere(c, at, s, step, inst, h, seen);
      if ChildAt(s, Child(KIf)).Some? {
        ChildHere(c, at, s, Child(KIf), inst, h, seen);
      }
      ReadyHere(c, at, s, inst, h, seen, step);
      SameMark(c, at + [step], ChildAt(s, step).value, inst, mark, true, h, seen);
    }
  }

  // ----- settling -----

  /** A document whose `$ref`s resolve and never lead back in place settles on a verdict for every instance. */
  lemma ReturnFreeSettles(d: Document, v: Vocabulary, inst: Json)
    requires NeverReturns(d)
    ensures Settles(d, v, inst, true) || Settles(d, v, inst, false)
  {
    hide Accepts, NeverReturns, Within, Locations, Comes;
    var h := HasDepth(inst);
    SubsetCount({}, Locations(d.root));
    var n := h * (|Locations(d.root)| + 1) + |Locations(d.root)|;
    var verdict := Accepts(d, v, n, false, d.root, inst);
    forall fuel: nat, bottom: bool | n <= fuel ensures Accepts(d, v, fuel, bottom, d.root, inst) == verdict {
      Same(Readings(d, v, fuel, bottom, n, false), [], d.root, inst, h, {});
    }
    assert SettlesBy(d, v, inst, verdict, n);
  }

  /** So where the earlier one of two documents is of this kind and the comparison is silent, both reach a verdict, and
      the same one. */
  lemma SilentMeansOneVerdict(before: Document, after: Document, v: Vocabulary, inst: Json) returns (verdict: bool)
    requires Compatible(before, after) && WellShaped(before, after) && PoliciesAgree(before, after)
    requires Avoids(NewNames(before, after), inst) && NeverReturns(before)
    ensures Settles(before, v, inst, verdict) && Settles(after, v, inst, verdict)
  {
    hide *;
    ReturnFreeSettles(before, v, inst);
    verdict := Settles(before, v, inst, true);
    SilentMeansSameVerdict(before, after, v, inst, verdict);
  }

  /** A document that is only a reference to itself. */
  function Looping(): Document {
    Document(Node(map[KRef := Data(Str("#"))]), map["#" := []])
  }

  /** It settles on no verdict, for any instance. */
  lemma LoopingNeverSettles(v: Vocabulary, inst: Json, verdict: bool)
    ensures !Settles(Looping(), v, inst, verdict)
  {
    hide Accepts, Looping;
    if Settles(Looping(), v, inst, verdict) {
      var n: nat :| SettlesBy(Looping(), v, inst, verdict, n);
      LoopingIsBottom(v, inst, n, true);
      LoopingIsBottom(v, inst, n, false);
    }
  }

  lemma {:induction false} LoopingIsBottom(v: Vocabulary, inst: Json, fuel: nat, bottom: bool)
    ensures Accepts(Looping(), v, fuel, bottom, Looping().root, inst) == bottom
  {
    var d := Looping();
    assert Target(d, Get(d.root.kw, KRef)) == Some(d.root);
    if fuel > 0 {
      LoopingIsBottom(v, inst, fuel - 1, bottom);
    }
    assert Holds(d, v, fuel, bottom, d.root, KRef, inst) == bottom;
  }
}
