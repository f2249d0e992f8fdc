/** Comparison of published catalog values: every difference is reported, at its exact place. */
module CatalogValues {
  import opened Wrappers
  import opened WireSchema

  datatype PathStep = Field(name: string) | Index(index: nat) | Keyed(key: string)

  datatype Fault =
    | Removed | Added | LengthChanged | TypeChanged | ValueChanged
    | BadVersion | NotAnArray | Unnamed | DuplicateName | DuplicateProjection

  datatype CatalogError = CatalogError(path: seq<PathStep>, fault: Fault)

  predicate SameType(x: Json, y: Json) {
    (x.Null? && y.Null?) || (x.Boolean? && y.Boolean?) || (x.Number? && y.Number?) || (x.Str? && y.Str?)
    || (x.Arr? && y.Arr?) || (x.Obj? && y.Obj?)
  }

  /** The difference between two values at a place below them, if the place is where they differ. */
  function FaultAt(before: Json, after: Json, at: seq<PathStep>): Option<Fault>
    decreases |at|
  {
    if at == [] then
      if before.Obj? && after.Obj? then None
      else if before.Arr? && after.Arr? then (if |before.items| == |after.items| then None else Some(LengthChanged))
      else if !SameType(before, after) then Some(TypeChanged)
      else if before != after then Some(ValueChanged)
      else None
    else if at[0].Field? && before.Obj? && after.Obj? then
      var k := at[0].name;
      if k in before.members && k in after.members then FaultAt(before.members[k], after.members[k], at[1..])
      else if |at| > 1 then None
      else if k in before.members then Some(Removed)
      else if k in after.members then Some(Added)
      else None
    else if at[0].Index? && before.Arr? && after.Arr? then
      var i := at[0].index;
      if i < |before.items| && i < |after.items| then FaultAt(before.items[i], after.items[i], at[1..]) else None
    else None
  }

  ghost predicate Silent(before: Json, after: Json) {
    forall at :: FaultAt(before, after, at) == None
  }

  lemma {:induction false} EqualIsSilent(x: Json, at: seq<PathStep>)
    ensures FaultAt(x, x, at) == None
    decreases |at|
  {
    if at != [] {
      if at[0].Field? && x.Obj? && at[0].name in x.members {
        EqualIsSilent(x.members[at[0].name], at[1..]);
      } else if at[0].Index? && x.Arr? && at[0].index < |x.items| {
        EqualIsSilent(x.items[at[0].index], at[1..]);
      }
    }
  }

  lemma SilentChild(before: Json, after: Json, step: PathStep, x: Json, y: Json)
    requires Silent(before, after)
    requires (before.Obj? && after.Obj? && step.Field? && step.name in before.members && step.name in after.members
              && x == before.members[step.name] && y == after.members[step.name])
             || (before.Arr? && after.Arr? && step.Index? && step.index < |before.items| && step.index < |after.items|
                 && x == before.items[step.index] && y == after.items[step.index])
    ensures Silent(x, y)
  {
    forall at ensures FaultAt(x, y, at) == None {
      assert ([step] + at)[1..] == at;
      assert FaultAt(before, after, [step] + at) == None;
    }
  }

  lemma {:induction false} SilentIsEqual(before: Json, after: Json)
    requires Silent(before, after)
    ensures before == after
    decreases before
  {
    assert FaultAt(before, after, []) == None;
    if before.Obj? && after.Obj? {
      forall k ensures k in before.members <==> k in after.members {
        assert FaultAt(before, after, [Field(k)]) == None;
      }
      forall k | k in before.members ensures before.members[k] == after.members[k] {
        SilentChild(before, after, Field(k), before.members[k], after.members[k]);
        SilentIsEqual(before.members[k], after.members[k]);
      }
      assert before.members == after.members;
    } else if before.Arr? && after.Arr? {
      forall i | 0 <= i < |before.items| ensures before.items[i] == after.items[i] {
        SilentChild(before, after, Index(i), before.items[i], after.items[i]);
        SilentIsEqual(before.items[i], after.items[i]);
      }
    }
  }

  /** No difference anywhere below means the values are equal, and the other way round. */
  lemma SilentIffEqual(before: Json, after: Json)
    ensures Silent(before, after) <==> before == after
  {
    if Silent(before, after) {
      SilentIsEqual(before, after);
    }
    if before == after {
      forall at ensures FaultAt(before, after, at) == None {
        EqualIsSilent(before, at);
      }
    }
  }

  /** What stands one step inside a value. */
  function Inside(x: Json, step: PathStep): Option<Json> {
    match (step, x)
    case (Field(n), Obj(m)) => if n in m then Some(m[n]) else None
    case (Index(i), Arr(xs)) => if i < |xs| then Some(xs[i]) else None
    case _ => None
  }

  /** The value at a place. */
  function ValueAt(x: Json, at: seq<PathStep>): Option<Json>
    decreases |at|
  {
    if at == [] then Some(x)
    else if Inside(x, at[0]).None? then None
    else ValueAt(Inside(x, at[0]).value, at[1..])
  }

  /** One side lacks the field `at` ends with, where both have an object around it. */
  predicate Lacks(has: Json, lacks: Json, at: seq<PathStep>) {
    && at != [] && at[|at| - 1].Field? && ValueAt(has, at).Some? && ValueAt(lacks, at).None?
    && ValueAt(lacks, at[..|at| - 1]).Some? && ValueAt(lacks, at[..|at| - 1]).value.Obj?
  }

  /** What two values standing at the same place differ in. */
  predicate Differs(x: Json, y: Json, fault: Fault) {
    match fault
    case LengthChanged => x.Arr? && y.Arr? && |x.items| != |y.items|
    case TypeChanged =>
      x.Null? != y.Null? || x.Boolean? != y.Boolean? || x.Number? != y.Number? || x.Str? != y.Str? || x.Arr? != y.Arr? || x.Obj? != y.Obj?
    case ValueChanged =>
      x != y && ((x.Boolean? && y.Boolean?) || (x.Number? && y.Number?) || (x.Str? && y.Str?))
    case _ => false
  }

  /** The difference is what stands at the place on the two sides. */
  predicate Shows(before: Json, after: Json, at: seq<PathStep>, fault: Fault) {
    match fault
    case Removed => Lacks(before, after, at)
    case Added => Lacks(after, before, at)
    case _ => ValueAt(before, at).Some? && ValueAt(after, at).Some? && Differs(ValueAt(before, at).value, ValueAt(after, at).value, fault)
  }

  /** The value at a place of several steps is the one at the rest of the place, one step inside. */
  lemma OneInside(x: Json, at: seq<PathStep>)
    requires at != []
    ensures Inside(x, at[0]).None? ==> ValueAt(x, at).None?
    ensures Inside(x, at[0]).Some? ==> ValueAt(x, at) == ValueAt(Inside(x, at[0]).value, at[1..])
  {}

  lemma LacksStep(has: Json, lacks: Json, at: seq<PathStep>)
    requires at != [] && Inside(has, at[0]).Some? && Inside(lacks, at[0]).Some?
    ensures Lacks(has, lacks, at) <==> Lacks(Inside(has, at[0]).value, Inside(lacks, at[0]).value, at[1..])
  {
    hide ValueAt, Inside;
    var rest, parent := at[1..], at[..|at| - 1];
    OneInside(has, at);
    OneInside(lacks, at);
    if |at| > 1 {
      assert parent[0] == at[0] && parent[1..] == rest[..|rest| - 1] && rest[|rest| - 1] == at[|at| - 1];
      OneInside(lacks, parent);
    } else {
      assert rest == [];
      AtNothing(Inside(lacks, at[0]).value);
    }
  }

  lemma AtNothing(x: Json)
    ensures ValueAt(x, []) == Some(x)
  {}

  /** Where one side has nothing to step into, all that can show is a missing field right there. */
  lemma LacksHere(has: Json, lacks: Json, at: seq<PathStep>)
    requires at != [] && (Inside(has, at[0]).None? || Inside(lacks, at[0]).None?)
    ensures Lacks(has, lacks, at) <==> |at| == 1 && at[0].Field? && Inside(has, at[0]).Some? && lacks.Obj?
  {
    hide ValueAt, Inside;
    OneInside(has, at);
    OneInside(lacks, at);
    if |at| > 1 {
      assert at[..|at| - 1][0] == at[0];
      OneInside(lacks, at[..|at| - 1]);
    } else {
      assert at[..0] == [] && at[1..] == [];
      AtNothing(lacks);
      if Inside(has, at[0]).Some? {
        AtNothing(Inside(has, at[0]).value);
      }
    }
  }

  /** Each difference is what stands at its place. */
  lemma {:induction false} FaultMeans(before: Json, after: Json, at: seq<PathStep>, fault: Fault)
    ensures FaultAt(before, after, at) == Some(fault) <==> Shows(before, after, at, fault)
    decreases |at|
  {
    if at != [] {
      hide Lacks, Differs;
      var step := at[0];
      if Inside(before, step).Some? && Inside(after, step).Some? {
        var x, y := Inside(before, step).value, Inside(after, step).value;
        LacksStep(before, after, at);
        LacksStep(after, before, at);
        FaultMeans(x, y, at[1..], fault);
      } else {
        LacksHere(before, after, at);
        LacksHere(after, before, at);
      }
    }
  }

  // ----- the walk that reports them -----

  /** The error is the difference of the two values at its path below `path`. */
  predicate IsFault(before: Json, after: Json, path: seq<PathStep>, e: CatalogError) {
    path <= e.path && FaultAt(before, after, e.path[|path|..]) == Some(e.fault)
  }

  /** The error lies below `path` at one of the given steps. */
  predicate Below(path: seq<PathStep>, steps: set<PathStep>, e: CatalogError) {
    path <= e.path && |e.path| > |path| && e.path[|path|] in steps
  }

  /** The errors are exactly the differences at or below the given steps. */
  ghost predicate Reported(errors: seq<CatalogError>, before: Json, after: Json, path: seq<PathStep>, steps: set<PathStep>) {
    forall e :: e in errors <==> Below(path, steps, e) && IsFault(before, after, path, e)
  }

  lemma ReportedBoth(
    xs: seq<CatalogError>, ys: seq<CatalogError>, before: Json, after: Json, path: seq<PathStep>, s: set<PathStep>, t: set<PathStep>
  )
    requires Reported(xs, before, after, path, s) && Reported(ys, before, after, path, t)
    ensures Reported(xs + ys, before, after, path, s + t)
  {
    hide IsFault;
  }

  predicate Missing(before: Json, after: Json, k: string, fault: Fault) {
    before.Obj? && after.Obj?
    && ((k in before.members && k !in after.members && fault == Removed)
        || (k in after.members && k !in before.members && fault == Added))
  }

  lemma ReportedMissing(before: Json, after: Json, path: seq<PathStep>, k: string, fault: Fault)
    requires Missing(before, after, k, fault)
    ensures Reported([CatalogError(path + [Field(k)], fault)], before, after, path, {Field(k)})
  {
    forall e | Below(path, {Field(k)}, e) && IsFault(before, after, path, e)
      ensures e == CatalogError(path + [Field(k)], fault)
    {
      var at := e.path[|path|..];
      assert at[0] == Field(k) && |at| == 1;
      assert e.path == path + at;
    }
    var at := (path + [Field(k)])[|path|..];
    assert at == [Field(k)];
  }

  lemma ReportedChild(
    errors: seq<CatalogError>, before: Json, after: Json, path: seq<PathStep>, step: PathStep, x: Json, y: Json
  )
    requires (before.Obj? && after.Obj? && step.Field? && step.name in before.members && step.name in after.members
              && x == before.members[step.name] && y == after.members[step.name])
             || (before.Arr? && after.Arr? && step.Index? && step.index < |before.items| && step.index < |after.items|
                 && x == before.items[step.index] && y == after.items[step.index])
    requires forall e :: e in errors <==> IsFault(x, y, path + [step], e)
    ensures Reported(errors, before, after, path, {step})
  {
    forall e ensures Below(path, {step}, e) && IsFault(before, after, path, e) <==> IsFault(x, y, path + [step], e) {
      ChildFault(before, after, path, step, x, y, e);
    }
  }

  lemma ChildFault(before: Json, after: Json, path: seq<PathStep>, step: PathStep, x: Json, y: Json, e: CatalogError)
    requires (before.Obj? && after.Obj? && step.Field? && step.name in before.members && step.name in after.members
              && x == before.members[step.name] && y == after.members[step.name])
             || (before.Arr? && after.Arr? && step.Index? && step.index < |before.items| && step.index < |after.items|
                 && x == before.items[step.index] && y == after.items[step.index])
    ensures Below(path, {step}, e) && IsFault(before, after, path, e) <==> IsFault(x, y, path + [step], e)
  {
    if path + [step] <= e.path {
      assert path <= e.path && e.path[|path|] == step;
      assert e.path[|path|..][1..] == e.path[|path + [step]|..];
    }
    if Below(path, {step}, e) {
      assert path + [step] <= e.path;
    }
  }

  /** Appends one error for each place where the values differ, and nothing else. */
  method CompareValue(before: Json, after: Json, path: seq<PathStep>, errors: seq<CatalogError>)
    returns (grown: seq<CatalogError>)
    ensures errors <= grown
    ensures forall e :: e in grown[|errors|..] <==> IsFault(before, after, path, e)
    ensures grown == errors <==> before == after
    decreases before, 1
  {
    if before.Obj? && after.Obj? {
      grown := CompareObjects(before, after, path, errors);
    } else if before.Arr? && after.Arr? {
      grown := CompareArrays(before, after, path, errors);
    } else if !SameType(before, after) {
      grown := errors + [CatalogError(path, TypeChanged)];
      LeafReport(before, after, path, TypeChanged);
    } else if before != after {
      grown := errors + [CatalogError(path, ValueChanged)];
      LeafReport(before, after, path, ValueChanged);
    } else {
      grown := errors;
    }
    NothingIffEqual(before, after, path, grown[|errors|..]);
    assert grown == errors + grown[|errors|..];
  }

  lemma NothingIffEqual(before: Json, after: Json, path: seq<PathStep>, found: seq<CatalogError>)
    requires forall e :: e in found <==> IsFault(before, after, path, e)
    ensures found == [] <==> before == after
  {
    SilentIffEqual(before, after);
    assert found != [] ==> IsFault(before, after, path, found[0]);
    if before != after {
      var at :| FaultAt(before, after, at) != None;
      var e := CatalogError(path + at, FaultAt(before, after, at).value);
      assert e.path[|path|..] == at;
      assert e in found;
    }
  }

  lemma LeafReport(before: Json, after: Json, path: seq<PathStep>, fault: Fault)
    requires FaultAt(before, after, []) == Some(fault)
    requires !(before.Obj? && after.Obj?) && !(before.Arr? && after.Arr?)
    ensures forall e :: e in [CatalogError(path, fault)] <==> IsFault(before, after, path, e)
  {
    assert path[|path|..] == [];
    forall e | IsFault(before, after, path, e) ensures e == CatalogError(path, fault) {
      assert e.path[|path|..] == [];
      assert e.path == path;
    }
  }

  function Fields(names: set<string>): set<PathStep> {
    set k | k in names :: Field(k)
  }

  /** Between two objects or two arrays every difference lies below a step, except a change of length. */
  lemma ObjectFaultsBelow(before: Json, after: Json, path: seq<PathStep>, found: seq<CatalogError>)
    requires before.Obj? && after.Obj?
    requires Reported(found, before, after, path, Fields(before.members.Keys + after.members.Keys))
    ensures forall e :: e in found <==> IsFault(before, after, path, e)
  {
    forall e | IsFault(before, after, path, e)
      ensures Below(path, Fields(before.members.Keys + after.members.Keys), e)
    {
      var at := e.path[|path|..];
      assert at != [] && at[0].Field?;
      assert at[0].name in before.members.Keys + after.members.Keys;
    }
  }

  lemma ReportedNothing(before: Json, after: Json, path: seq<PathStep>)
    ensures Reported([], before, after, path, {})
  {}

  method ReportMissing(before: Json, after: Json, path: seq<PathStep>, names: set<string>, fault: Fault)
    returns (found: seq<CatalogError>)
    requires forall k :: k in names ==> Missing(before, after, k, fault)
    ensures Reported(found, before, after, path, Fields(names))
  {
    hide Reported, IsFault, Missing;
    found := [];
    var todo := names;
    ReportedNothing(before, after, path);
    assert Fields(names - todo) == {};
    while todo != {}
      invariant todo <= names
      invariant Reported(found, before, after, path, Fields(names - todo))
      decreases |todo|
    {
      var k :| k in todo;
      ReportedMissing(before, after, path, k, fault);
      ReportedBoth(found, [CatalogError(path + [Field(k)], fault)], before, after, path, Fields(names - todo), {Field(k)});
      assert Fields(names - (todo - {k})) == Fields(names - todo) + {Field(k)};
      found := found + [CatalogError(path + [Field(k)], fault)];
      todo := todo - {k};
    }
    assert names - todo == names;
  }

  method CompareCommon(before: Json, after: Json, path: seq<PathStep>, names: set<string>)
    returns (found: seq<CatalogError>)
    requires before.Obj? && after.Obj? && names == before.members.Keys * after.members.Keys
    ensures Reported(found, before, after, path, Fields(names))
    decreases before, 0, 0
  {
    hide Reported, IsFault;
    found := [];
    var todo := names;
    ReportedNothing(before, after, path);
    assert Fields(names - todo) == {};
    while todo != {}
      invariant todo <= names
      invariant Reported(found, before, after, path, Fields(names - todo))
      decreases |todo|
    {
      var k :| k in todo;
      var x, y := before.members[k], after.members[k];
      var more := CompareValue(x, y, path + [Field(k)], []);
      assert more[0..] == more;
      ReportedChild(more, before, after, path, Field(k), x, y);
      ReportedBoth(found, more, before, after, path, Fields(names - todo), {Field(k)});
      assert Fields(names - (todo - {k})) == Fields(names - todo) + {Field(k)};
      found := found + more;
      todo := todo - {k};
    }
    assert names - todo == names;
  }

  method CompareObjects(before: Json, after: Json, path: seq<PathStep>, errors: seq<CatalogError>)
    returns (grown: seq<CatalogError>)
    requires before.Obj? && after.Obj?
    ensures errors <= grown
    ensures forall e :: e in grown[|errors|..] <==> IsFault(before, after, path, e)
    decreases before, 0, 1
  {
    hide Reported, IsFault;
    var past, cur := before.members.Keys, after.members.Keys;
    var removed := ReportMissing(before, after, path, past - cur, Removed);
    var added := ReportMissing(before, after, path, cur - past, Added);
    var common := CompareCommon(before, after, path, past * cur);
    ReportedBoth(removed, added, before, after, path, Fields(past - cur), Fields(cur - past));
    ReportedBoth(removed + added, common, before, after, path, Fields(past - cur) + Fields(cur - past), Fields(past * cur));
    assert Fields(past - cur) + Fields(cur - past) + Fields(past * cur) == Fields(past + cur) by {
      assert (past - cur) + (cur - past) + past * cur == past + cur;
    }
    ObjectFaultsBelow(before, after, path, removed + added + common);
    grown := errors + (removed + added + common);
    assert grown[|errors|..] == removed + added + common;
  }

  function Indices(n: nat): set<PathStep> {
    set i: nat | 0 <= i < n :: Index(i)
  }

  lemma ArrayFaultsBelow(before: Json, after: Json, path: seq<PathStep>, n: nat, found: seq<CatalogError>)
    requires before.Arr? && after.Arr?
    requires n == if |before.items| < |after.items| then |before.items| else |after.items|
    requires Reported(found, before, after, path, Indices(n))
    ensures |before.items| == |after.items| ==> forall e :: e in found <==> IsFault(before, after, path, e)
    ensures |before.items| != |after.items| ==>
      forall e :: e in [CatalogError(path, LengthChanged)] + found <==> IsFault(before, after, path, e)
  {
    assert path[|path|..] == [];
    forall e | IsFault(before, after, path, e)
      ensures Below(path, Indices(n), e) || (e == CatalogError(path, LengthChanged) && |before.items| != |after.items|)
    {
      var at := e.path[|path|..];
      assert e.path == path + at;
      if at != [] {
        assert at[0].Index? && at[0].index < n;
      }
    }
  }

  method CompareArrays(before: Json, after: Json, path: seq<PathStep>, errors: seq<CatalogError>)
    returns (grown: seq<CatalogError>)
    requires before.Arr? && after.Arr?
    ensures errors <= grown
    ensures forall e :: e in grown[|errors|..] <==> IsFault(before, after, path, e)
    decreases before, 0
  {
    hide Reported, IsFault;
    var n := if |before.items| < |after.items| then |before.items| else |after.items|;
    var found: seq<CatalogError> := [];
    var i: nat := 0;
    ReportedNothing(before, after, path);
    assert Indices(0) == {};
    while i < n
      invariant i <= n
      invariant Reported(found, before, after, path, Indices(i))
    {
      var more := CompareValue(before.items[i], after.items[i], path + [Index(i)], []);
      assert more[0..] == more;
      ReportedChild(more, before, after, path, Index(i), before.items[i], after.items[i]);
      ReportedBoth(found, more, before, after, path, Indices(i), {Index(i)});
      assert Indices(i + 1) == Indices(i) + {Index(i)};
      found := found + more;
      i := i + 1;
    }
    ArrayFaultsBelow(before, after, path, n, found);
    if |before.items| != |after.items| {
      found := [CatalogError(path, LengthChanged)] + found;
    }
    grown := errors + found;
    assert grown[|errors|..] == found;
  }
}
