/** A silent comparison means equal verdicts: related schemas accept the same instances. */
module WireSoundness {
  import opened Wrappers
  import opened WireSchema
  import opened WireValidator
  import opened WireCompat
  import opened WireWalk

  /** The two documents, a relation closed under the comparison, the pairs of it in which
      `unevaluatedProperties` takes an interest, and the names it lets in. */
  datatype Setting = Setting(before: Document, after: Document, v: Vocabulary, r: Pairs, watched: Pairs, added: set<string>)

  /** Subschemas that are applied to the instance itself. */
  predicate InPlaceStep(step: Step) {
    match step
    case Element(k, _) => k.KAllOf? || k.KAnyOf? || k.KOneOf?
    case Child(k) => k.KIf? || k.KThen? || k.KElse?
    case Entry(k, _) => k.KDependentSchemas?
  }

  /** `additionalProperties` is written out on both sides or on neither. */
  predicate WrittenAlike(x: Schema, y: Schema) {
    x.Node? && y.Node? ==> (KAdditional in x.kw <==> KAdditional in y.kw)
  }

  predicate Watches(w: Pairs, x: Schema, y: Schema) {
    x.Node? && y.Node? ==> (x, y) in w
  }

  /** Written out or left to its default, `additionalProperties` accepts the same members, but only the
      written one counts as evaluating them. That matters at a node with `unevaluatedProperties` and at
      the nodes reached from it in place, and nowhere else. */
  ghost predicate LooksAlike(c: Setting) {
    && (forall x: Schema, y: Schema :: (x, y) in c.r && x.Node? && KUnevaluatedProperties in x.kw ==> (x, y) in c.watched)
    && (forall x: Schema, y: Schema :: (x, y) in c.watched ==> WrittenAlike(x, y))
    && (forall x: Schema, y: Schema, step :: (x, y) in c.watched && InPlaceStep(step) && ChildAt(x, step).Some? && ChildAt(y, step).Some? ==>
          Watches(c.watched, ChildAt(x, step).value, ChildAt(y, step).value))
    && (forall x: Schema, y: Schema :: (x, y) in c.watched ==> TargetsWatched(c.before, c.after, c.watched, x, y))
  }

  ghost predicate TargetsWatched(before: Document, after: Document, w: Pairs, x: Schema, y: Schema) {
    x.Node? && y.Node? && SameRef(x, y) ==>
      var s, t := Target(before, Get(x.kw, KRef)), Target(after, Get(y.kw, KRef));
      s.Some? && t.Some? ==> Watches(w, s.value, t.value)
  }

  ghost predicate Shaped(r: Pairs) {
    forall x: Schema, y: Schema :: (x, y) in r ==> ShapeOk(x) && ShapeOk(y)
  }

  ghost predicate Sound(c: Setting) {
    Bisimulation(c.before, c.after, c.r) && NamesAdded(c.r, c.added) && Shaped(c.r) && LooksAlike(c)
  }

  ghost predicate OldOk(c: Setting, fuel: nat, bottom: bool, s: Schema, inst: Json) {
    Accepts(c.before, c.v, fuel, bottom, s, inst)
  }

  ghost predicate NewOk(c: Setting, fuel: nat, bottom: bool, s: Schema, inst: Json) {
    Accepts(c.after, c.v, fuel, bottom, s, inst)
  }

  ghost predicate Pair(c: Setting, x: Schema, y: Schema) {
    Sound(c) && x.Node? && y.Node? && (x, y) in c.r
  }

  lemma PairFacts(c: Setting, x: Schema, y: Schema)
    requires Pair(c, x, y)
    ensures LocalFaults(x.kw, y.kw) == {} && ShapeOk(x) && ShapeOk(y)
    ensures StepsRelated(c.r, x, y) && RefsRelated(c.before, c.after, c.r, x, y)
  {
    hide LocalFaults, StepsRelated, RefsRelated, ShapeOk, IsNodeOf;
  }

  lemma ChildrenRelated(c: Setting, x: Schema, y: Schema, step: Step)
    requires Pair(c, x, y) && ChildAt(x, step).Some? && ChildAt(y, step).Some?
    ensures Related(c.r, ChildAt(x, step).value, ChildAt(y, step).value)
  {
    hide LocalFaults, ChildAt, Bisimulation;
    PairFacts(c, x, y);
  }

  // ----- the induction over depth and structure -----

  /** Related schemas give the same verdict at every depth of reading. */
  lemma {:induction false} SameVerdict(c: Setting, fuel: nat, bottom: bool, x: Schema, y: Schema, inst: Json)
    requires Sound(c) && Related(c.r, x, y) && Avoids(c.added, inst)
    ensures OldOk(c, fuel, bottom, x, inst) == NewOk(c, fuel, bottom, y, inst)
    decreases fuel, x, 9
  {
    hide Holds, Bisimulation, NamesAdded, Shaped, LooksAlike, Avoids;
    if x.Node? && y.Node? {
      forall k
        ensures Present(c.before, c.v, fuel, bottom, x, k, inst) == Present(c.after, c.v, fuel, bottom, y, k, inst)
      {
        SameKeyword(c, fuel, bottom, x, y, k, inst);
        AbsentHolds(c.before, c.v, fuel, bottom, x, k, inst);
        AbsentHolds(c.after, c.v, fuel, bottom, y, k, inst);
      }
      AllPresent(c.before, c.v, fuel, bottom, x, inst);
      AllPresent(c.after, c.v, fuel, bottom, y, inst);
    }
  }

  ghost predicate Present(d: Document, v: Vocabulary, fuel: nat, bottom: bool, s: Schema, k: Key, inst: Json)
    requires s.Node?
  {
    k in s.kw ==> Holds(d, v, fuel, bottom, s, k, inst)
  }

  lemma AbsentHolds(d: Document, v: Vocabulary, fuel: nat, bottom: bool, s: Schema, k: Key, inst: Json)
    requires s.Node?
    ensures k !in s.kw ==> Holds(d, v, fuel, bottom, s, k, inst)
  {}

  lemma AllPresent(d: Document, v: Vocabulary, fuel: nat, bottom: bool, s: Schema, inst: Json)
    requires s.Node?
    ensures Accepts(d, v, fuel, bottom, s, inst) <==> forall k :: Present(d, v, fuel, bottom, s, k, inst)
  {
    if forall k :: Present(d, v, fuel, bottom, s, k, inst) {
      forall k | k in s.kw ensures Holds(d, v, fuel, bottom, s, k, inst) {
        assert Present(d, v, fuel, bottom, s, k, inst);
      }
    }
  }

  lemma {:induction false} SameKeyword(c: Setting, fuel: nat, bottom: bool, x: Schema, y: Schema, k: Key, inst: Json)
    requires Pair(c, x, y) && Avoids(c.added, inst)
    ensures Holds(c.before, c.v, fuel, bottom, x, k, inst) == Holds(c.after, c.v, fuel, bottom, y, k, inst)
    decreases fuel, x, 8
  {
    hide LocalFaults, Bisimulation, NamesAdded, Shaped, LooksAlike, Avoids, StepsRelated, RefsRelated;
    PairFacts(c, x, y);
    if Passive(k) {
    } else if k.KRef? {
      SameTarget(c, fuel, bottom, x, y, inst);
    } else if k.KType? || k.KEnum? || k.KRequired? {
      SameValues(c, fuel, bottom, x, y, k, inst);
    } else if k.KProperties? {
      SameProperties(c, fuel, bottom, x, y, inst);
    } else if k.KAdditional? {
      SameAdditional(c, fuel, bottom, x, y, inst);
    } else if k.KItems? {
      SameItems(c, fuel, bottom, x, y, inst);
    } else {
      SameRaw(c, fuel, bottom, x, y, k, inst);
    }
  }

  lemma {:induction false} SameTarget(c: Setting, fuel: nat, bottom: bool, x: Schema, y: Schema, inst: Json)
    requires Pair(c, x, y) && Avoids(c.added, inst)
    ensures Holds(c.before, c.v, fuel, bottom, x, KRef, inst) == Holds(c.after, c.v, fuel, bottom, y, KRef, inst)
    decreases fuel, x, 7
  {
    hide LocalFaults, Bisimulation, NamesAdded, Shaped, LooksAlike, Avoids, StepsRelated, Target, Accepts;
    PairFacts(c, x, y);
    RawEqual(x.kw, y.kw, KRef);
    if KRef in x.kw && fuel > 0 {
      SameVerdict(c, fuel - 1, bottom, Target(c.before, Get(x.kw, KRef)).value, Target(c.after, Get(y.kw, KRef)).value, inst);
    }
  }

  /** What the order-insensitive signatures of `type` and `enum` say about their verdicts. */
  lemma TypeHolds(d: Document, v: Vocabulary, fuel: nat, bottom: bool, s: Schema, inst: Json)
    requires s.Node? && ShapeOk(s)
    ensures Holds(d, v, fuel, bottom, s, KType, inst) <==>
      TypeSignature(s.kw) == (false, multiset{Null}) || HasOneType(v, TypeSignature(s.kw).1, inst)
  {
    if KType in s.kw && s.kw[KType].json.Str? {
      assert s.kw[KType].json in TypeSignature(s.kw).1;
    }
  }

  lemma EnumHolds(d: Document, v: Vocabulary, fuel: nat, bottom: bool, s: Schema, inst: Json)
    requires s.Node? && ShapeOk(s)
    ensures Holds(d, v, fuel, bottom, s, KEnum, inst) <==>
      EnumSignature(s.kw).None? || inst in EnumSignature(s.kw).value
  {}

  lemma RequiredHolds(d: Document, v: Vocabulary, fuel: nat, bottom: bool, s: Schema, inst: Json)
    requires s.Node?
    ensures Holds(d, v, fuel, bottom, s, KRequired, inst) <==>
      (inst.Obj? ==> RequiredNames(s.kw) <= inst.members.Keys)
  {}

  lemma SameValues(c: Setting, fuel: nat, bottom: bool, x: Schema, y: Schema, k: Key, inst: Json)
    requires Pair(c, x, y) && (k.KType? || k.KEnum? || k.KRequired?)
    ensures Holds(c.before, c.v, fuel, bottom, x, k, inst) == Holds(c.after, c.v, fuel, bottom, y, k, inst)
  {
    hide *;
    SameValuesBy(c, fuel, bottom, x, y, inst);
  }

  lemma SameValuesBy(c: Setting, fuel: nat, bottom: bool, x: Schema, y: Schema, inst: Json)
    requires Pair(c, x, y)
    ensures Holds(c.before, c.v, fuel, bottom, x, KType, inst) == Holds(c.after, c.v, fuel, bottom, y, KType, inst)
    ensures Holds(c.before, c.v, fuel, bottom, x, KEnum, inst) == Holds(c.after, c.v, fuel, bottom, y, KEnum, inst)
    ensures Holds(c.before, c.v, fuel, bottom, x, KRequired, inst) == Holds(c.after, c.v, fuel, bottom, y, KRequired, inst)
  {
    hide LocalFaults, Bisimulation, NamesAdded, Shaped, LooksAlike, StepsRelated, RefsRelated, Holds, TypeSignature, EnumSignature, RequiredNames, Properties, Additional, HasOneType;
    PairFacts(c, x, y);
    SignaturesEqual(x.kw, y.kw);
    PropertiesGrow(x.kw, y.kw);
    TypeHolds(c.before, c.v, fuel, bottom, x, inst);
    TypeHolds(c.after, c.v, fuel, bottom, y, inst);
    EnumHolds(c.before, c.v, fuel, bottom, x, inst);
    EnumHolds(c.after, c.v, fuel, bottom, y, inst);
    RequiredHolds(c.before, c.v, fuel, bottom, x, inst);
    RequiredHolds(c.after, c.v, fuel, bottom, y, inst);
  }

  ghost predicate MembersOk(d: Document, v: Vocabulary, fuel: nat, bottom: bool, p: map<string, Schema>, m: map<string, Json>) {
    forall n :: n in p && n in m ==> Accepts(d, v, fuel, bottom, p[n], m[n])
  }

  lemma PropertiesHolds(d: Document, v: Vocabulary, fuel: nat, bottom: bool, s: Schema, inst: Json)
    requires s.Node? && ShapeOk(s)
    ensures Holds(d, v, fuel, bottom, s, KProperties, inst) <==>
      (inst.Obj? ==> MembersOk(d, v, fuel, bottom, Properties(s.kw), inst.members))
  {}

  lemma {:induction false} SameProperties(c: Setting, fuel: nat, bottom: bool, x: Schema, y: Schema, inst: Json)
    requires Pair(c, x, y) && Avoids(c.added, inst)
    ensures Holds(c.before, c.v, fuel, bottom, x, KProperties, inst) == Holds(c.after, c.v, fuel, bottom, y, KProperties, inst)
    decreases fuel, x, 7
  {
    hide LocalFaults, Bisimulation, Shaped, LooksAlike, StepsRelated, RefsRelated, Holds, Accepts;
    PairFacts(c, x, y);
    PropertiesGrow(x.kw, y.kw);
    PropertiesHolds(c.before, c.v, fuel, bottom, x, inst);
    PropertiesHolds(c.after, c.v, fuel, bottom, y, inst);
    var p, q := Properties(x.kw), Properties(y.kw);
    if inst.Obj? {
      forall n | n in p && n in inst.members
        ensures OldOk(c, fuel, bottom, p[n], inst.members[n]) == NewOk(c, fuel, bottom, q[n], inst.members[n])
      {
        ChildrenRelated(c, x, y, Entry(KProperties, n));
        SameVerdict(c, fuel, bottom, p[n], q[n], inst.members[n]);
      }
      forall n | n in q && n in inst.members ensures n in p {
        assert n !in c.added;
      }
    }
  }

  ghost predicate ExtrasOk(d: Document, v: Vocabulary, fuel: nat, bottom: bool, kw: Keywords, m: map<string, Json>) {
    forall n :: n in m && IsAdditional(v, kw, n) ==> Accepts(d, v, fuel, bottom, Additional(kw), m[n])
  }

  lemma AdditionalHolds(d: Document, v: Vocabulary, fuel: nat, bottom: bool, s: Schema, inst: Json)
    requires s.Node? && ShapeOk(s)
    ensures Holds(d, v, fuel, bottom, s, KAdditional, inst) <==>
      (inst.Obj? ==> ExtrasOk(d, v, fuel, bottom, s.kw, inst.members))
  {
    hide IsAdditional;
  }

  lemma {:induction false} SameAdditional(c: Setting, fuel: nat, bottom: bool, x: Schema, y: Schema, inst: Json)
    requires Pair(c, x, y) && Avoids(c.added, inst)
    ensures Holds(c.before, c.v, fuel, bottom, x, KAdditional, inst) == Holds(c.after, c.v, fuel, bottom, y, KAdditional, inst)
    decreases fuel, x, 7
  {
    hide LocalFaults, Bisimulation, Shaped, LooksAlike, StepsRelated, RefsRelated, Holds, Accepts;
    PairFacts(c, x, y);
    PropertiesGrow(x.kw, y.kw);
    RawEqual(x.kw, y.kw, KPatternProperties);
    AdditionalHolds(c.before, c.v, fuel, bottom, x, inst);
    AdditionalHolds(c.after, c.v, fuel, bottom, y, inst);
    if inst.Obj? {
      forall n | n in inst.members
        ensures OldOk(c, fuel, bottom, Additional(x.kw), inst.members[n]) == NewOk(c, fuel, bottom, Additional(y.kw), inst.members[n])
        ensures IsAdditional(c.v, x.kw, n) == IsAdditional(c.v, y.kw, n)
      {
        assert n !in c.added;
        if Additional(x.kw).Node? && Additional(y.kw).Node? {
          ChildrenRelated(c, x, y, Child(KAdditional));
          SameVerdict(c, fuel, bottom, Additional(x.kw), Additional(y.kw), inst.members[n]);
        } else {
          FlagVerdict(c, fuel, bottom, Additional(x.kw), inst.members[n]);
        }
      }
    }
  }

  lemma FlagVerdict(c: Setting, fuel: nat, bottom: bool, s: Schema, inst: Json)
    requires s.Flag?
    ensures OldOk(c, fuel, bottom, s, inst) == NewOk(c, fuel, bottom, s, inst)
  {}

  ghost predicate TailOk(d: Document, v: Vocabulary, fuel: nat, bottom: bool, s: Schema, from: nat, items: seq<Json>) {
    forall i :: from <= i < |items| ==> Accepts(d, v, fuel, bottom, s, items[i])
  }

  lemma ItemsHolds(d: Document, v: Vocabulary, fuel: nat, bottom: bool, s: Schema, inst: Json)
    requires s.Node? && ShapeOk(s)
    ensures Holds(d, v, fuel, bottom, s, KItems, inst) <==>
      (inst.Arr? && KItems in s.kw ==> TailOk(d, v, fuel, bottom, s.kw[KItems].schema, PrefixLength(s.kw), inst.items))
  {
    hide PrefixLength;
  }

  lemma {:induction false} SameItems(c: Setting, fuel: nat, bottom: bool, x: Schema, y: Schema, inst: Json)
    requires Pair(c, x, y) && Avoids(c.added, inst)
    ensures Holds(c.before, c.v, fuel, bottom, x, KItems, inst) == Holds(c.after, c.v, fuel, bottom, y, KItems, inst)
    decreases fuel, x, 7
  {
    hide LocalFaults, Bisimulation, Shaped, LooksAlike, StepsRelated, RefsRelated, Holds, Accepts;
    PairFacts(c, x, y);
    PropertiesGrow(x.kw, y.kw);
    RawEqual(x.kw, y.kw, KPrefixItems);
    ItemsHolds(c.before, c.v, fuel, bottom, x, inst);
    ItemsHolds(c.after, c.v, fuel, bottom, y, inst);
    if inst.Arr? && KItems in x.kw {
      var p, q := x.kw[KItems].schema, y.kw[KItems].schema;
      ChildrenRelated(c, x, y, Child(KItems));
      forall i | 0 <= i < |inst.items|
        ensures OldOk(c, fuel, bottom, p, inst.items[i]) == NewOk(c, fuel, bottom, q, inst.items[i])
      {
        SameVerdict(c, fuel, bottom, p, q, inst.items[i]);
      }
    }
  }

  // ----- keywords compared raw: the same text on both sides, but refs inside may lead elsewhere -----

  lemma {:induction false} SameRaw(c: Setting, fuel: nat, bottom: bool, x: Schema, y: Schema, k: Key, inst: Json)
    requires Pair(c, x, y) && Avoids(c.added, inst) && (Unimplemented(k) || ComparedExactly(k))
    ensures Holds(c.before, c.v, fuel, bottom, x, k, inst) == Holds(c.after, c.v, fuel, bottom, y, k, inst)
    decreases fuel, x, 7
  {
    hide LocalFaults, Bisimulation, NamesAdded, Shaped, LooksAlike, Avoids, StepsRelated, RefsRelated, HoldsOne, HoldsMany, HoldsNamed,
      HoldsRef, ShapeOk, Sound, Accepts, Evaluates, ChildAt, Related;
    PairFacts(c, x, y);
    RawEqual(x.kw, y.kw, k);
    if k in x.kw {
      match x.kw[k] {
        case Data(_) =>
        case One(s) =>
          SameOne(c, fuel, bottom, x, y, k, s, inst);
        case Many(ss) =>
          SameMany(c, fuel, bottom, x, y, k, ss, inst);
        case Named(m) =>
          SameNamed(c, fuel, bottom, x, y, k, m, inst);
      }
    }
  }

  /** One subschema at a step both nodes have with the same text: same verdict on every instance. */
  lemma {:induction false} SameChild(c: Setting, fuel: nat, bottom: bool, x: Schema, y: Schema, step: Step, s: Schema, inst: Json)
    requires Pair(c, x, y) && Avoids(c.added, inst)
    requires ChildAt(x, step) == Some(s) && ChildAt(y, step) == Some(s)
    ensures OldOk(c, fuel, bottom, s, inst) == NewOk(c, fuel, bottom, s, inst)
    decreases fuel, x, 0
  {
    ChildrenRelated(c, x, y, step);
    SameVerdict(c, fuel, bottom, s, s, inst);
  }

  lemma {:induction false} SameOne(c: Setting, fuel: nat, bottom: bool, x: Schema, y: Schema, k: Key, s: Schema, inst: Json)
    requires Pair(c, x, y) && Avoids(c.added, inst) && (Unimplemented(k) || ComparedExactly(k))
    requires k in x.kw && k in y.kw && x.kw[k] == One(s) == y.kw[k]
    ensures HoldsOne(c.before, c.v, fuel, bottom, x, k, s, inst) == HoldsOne(c.after, c.v, fuel, bottom, y, k, s, inst)
    decreases fuel, x, 6
  {
    hide LocalFaults, Bisimulation, NamesAdded, Shaped, LooksAlike, StepsRelated, RefsRelated, Holds, Sound;
    if k.KNot? {
      SameChild(c, fuel, bottom, x, y, Child(k), s, inst);
    } else if k.KIf? {
      SameChild(c, fuel, bottom, x, y, Child(k), s, inst);
      SameBranch(c, fuel, bottom, x, y, KThen, inst);
      SameBranch(c, fuel, bottom, x, y, KElse, inst);
    } else if k.KContains? && inst.Arr? {
      SameCount(c, fuel, bottom, x, y, s, inst);
    } else if k.KPropertyNames? && inst.Obj? {
      forall n | n in inst.members ensures OldOk(c, fuel, bottom, s, Str(n)) == NewOk(c, fuel, bottom, s, Str(n)) {
        SameChild(c, fuel, bottom, x, y, Child(k), s, Str(n));
      }
    } else if k.KUnevaluatedProperties? && inst.Obj? {
      UnevaluatedWatched(c, x, y);
      forall n | n in inst.members
        ensures OldOk(c, fuel, bottom, s, inst.members[n]) == NewOk(c, fuel, bottom, s, inst.members[n])
        ensures OldEvaluates(c, fuel, bottom, x, inst, Member(n), false) == NewEvaluates(c, fuel, bottom, y, inst, Member(n), false)
      {
        SameChild(c, fuel, bottom, x, y, Child(k), s, inst.members[n]);
        SameEvaluates(c, fuel, bottom, x, y, inst, Member(n), false);
      }
    } else if k.KUnevaluatedItems? && inst.Arr? {
      forall i: nat | i < |inst.items|
        ensures OldOk(c, fuel, bottom, s, inst.items[i]) == NewOk(c, fuel, bottom, s, inst.items[i])
        ensures OldEvaluates(c, fuel, bottom, x, inst, Item(i), false) == NewEvaluates(c, fuel, bottom, y, inst, Item(i), false)
      {
        SameChild(c, fuel, bottom, x, y, Child(k), s, inst.items[i]);
        SameEvaluates(c, fuel, bottom, x, y, inst, Item(i), false);
      }
    }
  }

  // ----- which parts of an instance count as evaluated -----

  lemma UnevaluatedWatched(c: Setting, x: Schema, y: Schema)
    requires Pair(c, x, y) && KUnevaluatedProperties in x.kw
    ensures (x, y) in c.watched
  {
    hide Bisimulation, Shaped, NamesAdded;
  }

  ghost predicate OldEvaluates(c: Setting, fuel: nat, bottom: bool, s: Schema, inst: Json, mark: Mark, outside: bool) {
    Evaluates(c.before, c.v, fuel, bottom, s, inst, mark, outside)
  }

  ghost predicate NewEvaluates(c: Setting, fuel: nat, bottom: bool, s: Schema, inst: Json, mark: Mark, outside: bool) {
    Evaluates(c.after, c.v, fuel, bottom, s, inst, mark, outside)
  }

  /** The part exists in the instance; a member part is asked for only where it is watched. */
  ghost predicate Asked(c: Setting, x: Schema, y: Schema, inst: Json, mark: Mark) {
    match mark
    case Member(n) => inst.Obj? && n in inst.members && n !in c.added && (x, y) in c.watched
    case Item(i) => inst.Arr? && i < |inst.items|
  }

  /** The question goes along with a `$ref` and with subschemas applied in place. */
  lemma AskedThroughRef(c: Setting, x: Schema, y: Schema, inst: Json, mark: Mark)
    requires Pair(c, x, y) && Asked(c, x, y, inst, mark) && SameRef(x, y)
    requires var s, t := Target(c.before, Get(x.kw, KRef)), Target(c.after, Get(y.kw, KRef));
      s.Some? && t.Some? && s.value.Node? && t.value.Node?
    ensures Asked(c, Target(c.before, Get(x.kw, KRef)).value, Target(c.after, Get(y.kw, KRef)).value, inst, mark)
  {
    hide Bisimulation, Shaped, NamesAdded, Target;
  }

  lemma AskedInPlace(c: Setting, x: Schema, y: Schema, inst: Json, mark: Mark, step: Step)
    requires Pair(c, x, y) && Asked(c, x, y, inst, mark) && InPlace(step, inst)
    requires ChildAt(x, step).Some? && ChildAt(y, step).Some? && ChildAt(x, step).value.Node? && ChildAt(y, step).value.Node?
    ensures Asked(c, ChildAt(x, step).value, ChildAt(y, step).value, inst, mark)
  {
    hide Bisimulation, Shaped, NamesAdded, ChildAt;
    assert InPlaceStep(step);
  }

  lemma SameLooks(c: Setting, x: Schema, y: Schema, inst: Json, mark: Mark)
    requires Pair(c, x, y) && Asked(c, x, y, inst, mark)
    ensures LooksAt(c.v, x.kw, mark) == LooksAt(c.v, y.kw, mark)
  {
    hide LocalFaults, Bisimulation, Shaped, StepsRelated, RefsRelated;
    PairFacts(c, x, y);
    PropertiesGrow(x.kw, y.kw);
    RawEqual(x.kw, y.kw, KPatternProperties);
    RawEqual(x.kw, y.kw, KPrefixItems);
  }

  lemma {:induction false} SameEvaluates(c: Setting, fuel: nat, bottom: bool, x: Schema, y: Schema, inst: Json, mark: Mark, outside: bool)
    requires Pair(c, x, y) && Avoids(c.added, inst) && Asked(c, x, y, inst, mark)
    ensures OldEvaluates(c, fuel, bottom, x, inst, mark, outside) == NewEvaluates(c, fuel, bottom, y, inst, mark, outside)
    decreases fuel, x, 3
  {
    hide LocalFaults, Bisimulation, Shaped, LooksAlike, NamesAdded, StepsRelated, RefsRelated, LooksAt, Sound, Avoids, Asked, Evaluates, EvaluatesAt, ContainsMatches, EvaluatesThroughRef;
    PairFacts(c, x, y);
    SameLooks(c, x, y, inst, mark);
    RawEqual(x.kw, y.kw, UnevaluatedKey(mark));
    SameContains(c, fuel, bottom, x, y, inst, mark);
    SameThroughRef(c, fuel, bottom, x, y, inst, mark);
    forall step
      ensures EvaluatesAt(c.before, c.v, fuel, bottom, x, inst, mark, step) == EvaluatesAt(c.after, c.v, fuel, bottom, y, inst, mark, step)
    {
      SameAt(c, fuel, bottom, x, y, inst, mark, step);
    }
    EvaluatesIs(c.before, c.v, fuel, bottom, x, inst, mark, outside);
    EvaluatesIs(c.after, c.v, fuel, bottom, y, inst, mark, outside);
  }

  ghost predicate InSomeStep(d: Document, v: Vocabulary, fuel: nat, bottom: bool, s: Schema, inst: Json, mark: Mark) {
    exists step :: EvaluatesAt(d, v, fuel, bottom, s, inst, mark, step)
  }

  lemma EvaluatesIs(d: Document, v: Vocabulary, fuel: nat, bottom: bool, s: Schema, inst: Json, mark: Mark, outside: bool)
    requires s.Node?
    ensures Evaluates(d, v, fuel, bottom, s, inst, mark, outside) <==>
      ( || LooksAt(v, s.kw, mark)
        || (outside && UnevaluatedKey(mark) in s.kw)
        || ContainsMatches(d, v, fuel, bottom, s, inst, mark)
        || EvaluatesThroughRef(d, v, fuel, bottom, s, inst, mark)
        || InSomeStep(d, v, fuel, bottom, s, inst, mark))
  {
    hide LooksAt, Accepts;
    if InSomeStep(d, v, fuel, bottom, s, inst, mark) {
      var step :| EvaluatesAt(d, v, fuel, bottom, s, inst, mark, step);
    }
  }

  lemma {:induction false} SameContains(c: Setting, fuel: nat, bottom: bool, x: Schema, y: Schema, inst: Json, mark: Mark)
    requires Pair(c, x, y) && Avoids(c.added, inst)
    ensures ContainsMatches(c.before, c.v, fuel, bottom, x, inst, mark) == ContainsMatches(c.after, c.v, fuel, bottom, y, inst, mark)
    decreases fuel, x, 2
  {
    hide LocalFaults, Bisimulation, Shaped, LooksAlike, NamesAdded, StepsRelated, RefsRelated, Sound, Holds;
    PairFacts(c, x, y);
    RawEqual(x.kw, y.kw, KContains);
    if mark.Item? && inst.Arr? && mark.index < |inst.items| && ChildAt(x, Child(KContains)).Some? {
      SameChildOn(c, fuel, bottom, x, y, Child(KContains), x.kw[KContains].schema, inst.items[mark.index]);
    }
  }

  lemma {:induction false} SameThroughRef(c: Setting, fuel: nat, bottom: bool, x: Schema, y: Schema, inst: Json, mark: Mark)
    requires Pair(c, x, y) && Avoids(c.added, inst) && Asked(c, x, y, inst, mark)
    ensures EvaluatesThroughRef(c.before, c.v, fuel, bottom, x, inst, mark) == EvaluatesThroughRef(c.after, c.v, fuel, bottom, y, inst, mark)
    decreases fuel, x, 2
  {
    hide LocalFaults, Bisimulation, Shaped, LooksAlike, NamesAdded, StepsRelated, Avoids, Asked, Target, Holds;
    PairFacts(c, x, y);
    RawEqual(x.kw, y.kw, KRef);
    if KRef in x.kw && fuel > 0 {
      var s, t := Target(c.before, Get(x.kw, KRef)).value, Target(c.after, Get(y.kw, KRef)).value;
      SameVerdict(c, fuel - 1, bottom, s, t, inst);
      if s.Node? && t.Node? {
        AskedThroughRef(c, x, y, inst, mark);
        SameEvaluates(c, fuel - 1, bottom, s, t, inst, mark, true);
      }
    }
  }

  lemma {:induction false} SameAt(c: Setting, fuel: nat, bottom: bool, x: Schema, y: Schema, inst: Json, mark: Mark, step: Step)
    requires Pair(c, x, y) && Avoids(c.added, inst) && Asked(c, x, y, inst, mark)
    ensures EvaluatesAt(c.before, c.v, fuel, bottom, x, inst, mark, step) == EvaluatesAt(c.after, c.v, fuel, bottom, y, inst, mark, step)
    decreases fuel, x, 2
  {
    hide LocalFaults, Bisimulation, Shaped, LooksAlike, NamesAdded, StepsRelated, RefsRelated, Avoids, Asked, Sound, Holds;
    if InPlace(step, inst) {
      PairFacts(c, x, y);
      RawEqual(x.kw, y.kw, step.key);
      RawEqual(x.kw, y.kw, KIf);
      assert ChildAt(x, step) == ChildAt(y, step) && ChildAt(x, Child(KIf)) == ChildAt(y, Child(KIf));
      if ChildAt(x, Child(KIf)).Some? {
        SameChildOn(c, fuel, bottom, x, y, Child(KIf), ChildAt(x, Child(KIf)).value, inst);
      }
      if ChildAt(x, step).Some? {
        var s := ChildAt(x, step).value;
        SameChildOn(c, fuel, bottom, x, y, step, s, inst);
        if s.Node? {
          ChildrenRelated(c, x, y, step);
          AskedInPlace(c, x, y, inst, mark, step);
          SameEvaluates(c, fuel, bottom, s, s, inst, mark, true);
        }
      }
    }
  }

  lemma {:induction false} SameChildOn(c: Setting, fuel: nat, bottom: bool, x: Schema, y: Schema, step: Step, s: Schema, inst: Json)
    requires Pair(c, x, y) && Avoids(c.added, inst)
    requires ChildAt(x, step) == Some(s) && ChildAt(y, step) == Some(s)
    ensures OldOk(c, fuel, bottom, s, inst) == NewOk(c, fuel, bottom, s, inst)
    decreases fuel, x, 1
  {
    hide *;
    SameChild(c, fuel, bottom, x, y, step, s, inst);
  }

  lemma {:induction false} SameBranch(c: Setting, fuel: nat, bottom: bool, x: Schema, y: Schema, k: Key, inst: Json)
    requires Pair(c, x, y) && Avoids(c.added, inst) && (k.KThen? || k.KElse?)
    ensures ChildAt(x, Child(k)) == ChildAt(y, Child(k))
    ensures ChildAt(x, Child(k)).Some? ==>
      OldOk(c, fuel, bottom, ChildAt(x, Child(k)).value, inst) == NewOk(c, fuel, bottom, ChildAt(y, Child(k)).value, inst)
    decreases fuel, x, 5
  {
    hide LocalFaults, Bisimulation, NamesAdded, Shaped, LooksAlike, StepsRelated, RefsRelated, Holds, Sound;
    PairFacts(c, x, y);
    RawEqual(x.kw, y.kw, k);
    if ChildAt(x, Child(k)).Some? {
      SameChild(c, fuel, bottom, x, y, Child(k), x.kw[k].schema, inst);
    }
  }

  lemma {:induction false} SameCount(c: Setting, fuel: nat, bottom: bool, x: Schema, y: Schema, s: Schema, inst: Json)
    requires Pair(c, x, y) && Avoids(c.added, inst) && inst.Arr?
    requires KContains in x.kw && KContains in y.kw && x.kw[KContains] == One(s) == y.kw[KContains]
    ensures HoldsOne(c.before, c.v, fuel, bottom, x, KContains, s, inst) == HoldsOne(c.after, c.v, fuel, bottom, y, KContains, s, inst)
    decreases fuel, x, 5
  {
    hide LocalFaults, Bisimulation, NamesAdded, Shaped, LooksAlike, StepsRelated, RefsRelated, Holds, Sound;
    PairFacts(c, x, y);
    RawEqual(x.kw, y.kw, KOther("minContains"));
    RawEqual(x.kw, y.kw, KOther("maxContains"));
    forall i | 0 <= i < |inst.items|
      ensures Accepts(c.before, c.v, fuel, bottom, s, inst.items[i]) == Accepts(c.after, c.v, fuel, bottom, s, inst.items[i])
    {
      SameChild(c, fuel, bottom, x, y, Child(KContains), s, inst.items[i]);
    }
    assert ItemsAccepted(c.before, c.v, fuel, bottom, x, s, inst.items) == ItemsAccepted(c.after, c.v, fuel, bottom, y, s, inst.items);
  }

  lemma {:induction false} SameMany(c: Setting, fuel: nat, bottom: bool, x: Schema, y: Schema, k: Key, ss: seq<Schema>, inst: Json)
    requires Pair(c, x, y) && Avoids(c.added, inst) && (Unimplemented(k) || ComparedExactly(k))
    requires k in x.kw && k in y.kw && x.kw[k] == Many(ss) == y.kw[k]
    ensures HoldsMany(c.before, c.v, fuel, bottom, x, k, ss, inst) == HoldsMany(c.after, c.v, fuel, bottom, y, k, ss, inst)
    decreases fuel, x, 6
  {
    hide LocalFaults, Bisimulation, NamesAdded, Shaped, LooksAlike, StepsRelated, RefsRelated, Holds, Sound;
    if k.KPrefixItems? {
      if inst.Arr? {
        forall i | 0 <= i < |ss| && i < |inst.items|
          ensures OldOk(c, fuel, bottom, ss[i], inst.items[i]) == NewOk(c, fuel, bottom, ss[i], inst.items[i])
        {
          SameChild(c, fuel, bottom, x, y, Element(k, i), ss[i], inst.items[i]);
        }
      }
    } else if IsArrayApplicator(k) {
      forall i | 0 <= i < |ss|
        ensures Accepts(c.before, c.v, fuel, bottom, ss[i], inst) == Accepts(c.after, c.v, fuel, bottom, ss[i], inst)
      {
        SameChild(c, fuel, bottom, x, y, Element(k, i), ss[i], inst);
      }
      assert BranchesAccepting(c.before, c.v, fuel, bottom, x, k, ss, inst) == BranchesAccepting(c.after, c.v, fuel, bottom, y, k, ss, inst);
    }
  }

  lemma {:induction false} SameNamed(c: Setting, fuel: nat, bottom: bool, x: Schema, y: Schema, k: Key, m: map<string, Schema>, inst: Json)
    requires Pair(c, x, y) && Avoids(c.added, inst) && (Unimplemented(k) || ComparedExactly(k))
    requires k in x.kw && k in y.kw && x.kw[k] == Named(m) == y.kw[k]
    ensures HoldsNamed(c.before, c.v, fuel, bottom, x, k, m, inst) == HoldsNamed(c.after, c.v, fuel, bottom, y, k, m, inst)
    decreases fuel, x, 6
  {
    hide LocalFaults, Bisimulation, NamesAdded, Shaped, LooksAlike, StepsRelated, RefsRelated, Holds, Sound;
    if k.KPatternProperties? && inst.Obj? {
      forall p, n | p in m && n in inst.members
        ensures OldOk(c, fuel, bottom, m[p], inst.members[n]) == NewOk(c, fuel, bottom, m[p], inst.members[n])
      {
        SameChild(c, fuel, bottom, x, y, Entry(k, p), m[p], inst.members[n]);
      }
    } else if k.KDependentSchemas? {
      forall n | n in m ensures OldOk(c, fuel, bottom, m[n], inst) == NewOk(c, fuel, bottom, m[n], inst) {
        SameChild(c, fuel, bottom, x, y, Entry(k, n), m[n], inst);
      }
    }
  }

  // ----- the promise of the checker -----

  lemma {:induction false} SoundSettlesAlike(c: Setting, inst: Json, verdict: bool)
    requires Sound(c) && Related(c.r, c.before.root, c.after.root) && Avoids(c.added, inst)
    ensures Settles(c.before, c.v, inst, verdict) <==> Settles(c.after, c.v, inst, verdict)
  {
    hide Sound, Avoids, Accepts;
    forall fuel: nat, bottom: bool
      ensures Accepts(c.before, c.v, fuel, bottom, c.before.root, inst) == Accepts(c.after, c.v, fuel, bottom, c.after.root, inst)
    {
      SameVerdict(c, fuel, bottom, c.before.root, c.after.root, inst);
    }
    forall n: nat ensures SettlesBy(c.before, c.v, inst, verdict, n) == SettlesBy(c.after, c.v, inst, verdict, n) {}
  }

  /** From one pair of places to another that is applied to the same instance. */
  ghost predicate LeadsInPlace(before: Document, after: Document, p: Location, q: Location, p': Location, q': Location) {
    && Objects(before, after, p, q)
    && var x, y := NodeAt(before.root, p).value, NodeAt(after.root, q).value;
       (exists step :: InPlaceStep(step) && Descends(x, y, step) && p' == p + [step] && q' == q + [step])
       || RefLeads(before, after, x, y, p', q')
  }

  ghost predicate WatchedIn(before: Document, after: Document, p: Location, q: Location, n: nat)
    decreases n
  {
    if n == 0 then
      Arrives(before, after, p, q) && Objects(before, after, p, q) && KUnevaluatedProperties in NodeAt(before.root, p).value.kw
    else exists p0, q0 :: WatchedIn(before, after, p0, q0, n - 1) && LeadsInPlace(before, after, p0, q0, p, q)
  }

  /** The place carries `unevaluatedProperties`, or is reached in place from one that does: through
      `$ref`, allOf, anyOf, oneOf, if, then, else or dependentSchemas. */
  ghost predicate Watched(before: Document, after: Document, p: Location, q: Location) {
    exists n: nat :: WatchedIn(before, after, p, q, n)
  }

  /** At every watched place both documents write `additionalProperties` out, or neither does. */
  ghost predicate PoliciesAgree(before: Document, after: Document) {
    forall p, q :: Watched(before, after, p, q) && Objects(before, after, p, q) ==>
      WrittenAlike(NodeAt(before.root, p).value, NodeAt(after.root, q).value)
  }

  /** The metaschema holds at every place the comparison comes to. */
  ghost predicate WellShaped(before: Document, after: Document) {
    forall p, q :: Arrives(before, after, p, q) && Objects(before, after, p, q) ==>
      ShapeOk(NodeAt(before.root, p).value) && ShapeOk(NodeAt(after.root, q).value)
  }

  /** The property names the new document adds where the comparison comes. */
  ghost function NewNames(before: Document, after: Document): set<string> {
    set place, n | place in Universe(before, after) && n in NamesAddedAt(before, after, place.0, place.1) :: n
  }

  ghost function NamesAddedAt(before: Document, after: Document, p: Location, q: Location): set<string> {
    if Arrives(before, after, p, q) && Objects(before, after, p, q)
    then Properties(NodeAt(after.root, q).value.kw).Keys - Properties(NodeAt(before.root, p).value.kw).Keys
    else {}
  }

  ghost function WatchedImage(before: Document, after: Document): Pairs {
    set place | place in Universe(before, after) && Watched(before, after, place.0, place.1) && Objects(before, after, place.0, place.1) ::
      (NodeAt(before.root, place.0).value, NodeAt(after.root, place.1).value)
  }

  lemma InWatchedImage(before: Document, after: Document, p: Location, q: Location)
    requires Watched(before, after, p, q) && Objects(before, after, p, q)
    ensures (NodeAt(before.root, p).value, NodeAt(after.root, q).value) in WatchedImage(before, after)
  {
    hide NodeAt, Watched, Universe;
    InUniverse(before, after, p, q);
    var place := (p, q);
    assert place in Universe(before, after);
  }

  lemma FromWatchedImage(before: Document, after: Document, x: Schema, y: Schema) returns (p: Location, q: Location)
    requires (x, y) in WatchedImage(before, after)
    ensures Watched(before, after, p, q) && Objects(before, after, p, q)
    ensures NodeAt(before.root, p) == Some(x) && NodeAt(after.root, q) == Some(y)
  {
    hide NodeAt, Watched, Universe;
    var place :| place in Universe(before, after) && Watched(before, after, place.0, place.1)
      && Objects(before, after, place.0, place.1)
      && (x, y) == (NodeAt(before.root, place.0).value, NodeAt(after.root, place.1).value);
    p, q := place.0, place.1;
  }

  lemma WatchedNext(before: Document, after: Document, p: Location, q: Location, p': Location, q': Location)
    requires Watched(before, after, p, q) && LeadsInPlace(before, after, p, q, p', q')
    ensures Watched(before, after, p', q')
  {
    hide LeadsInPlace;
    var n: nat :| WatchedIn(before, after, p, q, n);
    assert WatchedIn(before, after, p', q', n + 1);
  }

  /** The setting two documents make by themselves. */
  ghost function SettingOf(before: Document, after: Document, v: Vocabulary): Setting {
    Setting(before, after, v, Image(before, after), WatchedImage(before, after), NewNames(before, after))
  }

  lemma NamesOfImage(before: Document, after: Document)
    ensures NamesAdded(Image(before, after), NewNames(before, after))
  {
    hide Image, Universe, Arrives, NodeAt;
    forall x: Schema, y: Schema, n | (x, y) in Image(before, after) && x.Node? && y.Node? && n in Properties(y.kw) && n !in Properties(x.kw)
      ensures n in NewNames(before, after)
    {
      var p, q := FromImage(before, after, x, y);
      InUniverse(before, after, p, q);
      var place := (p, q);
      assert n in NamesAddedAt(before, after, place.0, place.1);
    }
  }

  lemma ShapesOfImage(before: Document, after: Document)
    requires WellShaped(before, after)
    ensures Shaped(Image(before, after))
  {
    hide Image, Arrives, NodeAt, ShapeOk;
    forall x: Schema, y: Schema | (x, y) in Image(before, after) ensures ShapeOk(x) && ShapeOk(y) {
      var p, q := FromImage(before, after, x, y);
    }
  }

  lemma WatchedCloses(before: Document, after: Document, v: Vocabulary)
    requires PoliciesAgree(before, after)
    ensures LooksAlike(SettingOf(before, after, v))
  {
    hide Image, WatchedImage, Arrives, NodeAt, NewNames, Target, ChildAt, InPlaceStep, Watched;
    var w := WatchedImage(before, after);
    forall x: Schema, y: Schema | (x, y) in Image(before, after) && x.Node? && KUnevaluatedProperties in x.kw ensures (x, y) in w {
      var p, q := FromImage(before, after, x, y);
      CarrierIsWatched(before, after, p, q);
      InWatchedImage(before, after, p, q);
    }
    forall x: Schema, y: Schema | (x, y) in w ensures WrittenAlike(x, y) {
      var p, q := FromWatchedImage(before, after, x, y);
    }
    forall x: Schema, y: Schema, step | (x, y) in w && InPlaceStep(step) && ChildAt(x, step).Some? && ChildAt(y, step).Some?
      ensures Watches(w, ChildAt(x, step).value, ChildAt(y, step).value)
    {
      WatchedStep(before, after, x, y, step);
    }
    forall x: Schema, y: Schema | (x, y) in w ensures TargetsWatched(before, after, w, x, y) {
      WatchedRef(before, after, x, y);
    }
  }

  lemma CarrierIsWatched(before: Document, after: Document, p: Location, q: Location)
    requires Arrives(before, after, p, q) && Objects(before, after, p, q) && KUnevaluatedProperties in NodeAt(before.root, p).value.kw
    ensures Watched(before, after, p, q)
  {
    assert WatchedIn(before, after, p, q, 0);
  }

  lemma WatchedStep(before: Document, after: Document, x: Schema, y: Schema, step: Step)
    requires (x, y) in WatchedImage(before, after) && InPlaceStep(step) && ChildAt(x, step).Some? && ChildAt(y, step).Some?
    ensures Watches(WatchedImage(before, after), ChildAt(x, step).value, ChildAt(y, step).value)
  {
    hide WatchedImage, NodeAt, ChildAt, Watched;
    var p, q := FromWatchedImage(before, after, x, y);
    ChildPlaces(before, after, p, q, step);
    if ChildAt(x, step).value.Node? && ChildAt(y, step).value.Node? {
      assert Descends(x, y, step);
      assert LeadsInPlace(before, after, p, q, p + [step], q + [step]);
      WatchedNext(before, after, p, q, p + [step], q + [step]);
      InWatchedImage(before, after, p + [step], q + [step]);
    }
  }

  lemma WatchedRef(before: Document, after: Document, x: Schema, y: Schema)
    requires (x, y) in WatchedImage(before, after)
    ensures TargetsWatched(before, after, WatchedImage(before, after), x, y)
  {
    hide WatchedImage, NodeAt, Watched;
    if x.Node? && y.Node? && SameRef(x, y) && Resolvable(before, after, x, y) {
      var p, q := FromWatchedImage(before, after, x, y);
      var s, t := Resolve(before, Get(x.kw, KRef)).value, Resolve(after, Get(y.kw, KRef)).value;
      if Target(before, Get(x.kw, KRef)).value.Node? && Target(after, Get(y.kw, KRef)).value.Node? {
        assert RefLeads(before, after, x, y, s, t);
        assert LeadsInPlace(before, after, p, q, s, t);
        WatchedNext(before, after, p, q, s, t);
        InWatchedImage(before, after, s, t);
      }
    }
  }

  /** The checker's promise, on the two documents. Where a comparison of them is silent, and at the places
      where `unevaluatedProperties` looks both write `additionalProperties` out or neither does, they settle
      on the same verdict for every instance in which no object at any depth uses a newly added name. */
  lemma SilentMeansSameVerdict(before: Document, after: Document, v: Vocabulary, inst: Json, verdict: bool)
    requires Compatible(before, after) && WellShaped(before, after) && PoliciesAgree(before, after)
    requires Avoids(NewNames(before, after), inst)
    ensures Settles(before, v, inst, verdict) <==> Settles(after, v, inst, verdict)
  {
    hide Bisimulation, Image, WatchedImage, NewNames, LooksAlike, Shaped, NamesAdded, Avoids, Settles, Arrives, Stuck, Compatible;
    CompatibleIsFaultFree(before, after);
    ImageIsBisimulation(before, after);
    NamesOfImage(before, after);
    ShapesOfImage(before, after);
    WatchedCloses(before, after, v);
    ArrivesRoot(before, after);
    RootPlaces(before, after);
    ArrivedRelated(before, after, [], []);
    SoundSettlesAlike(SettingOf(before, after, v), inst, verdict);
  }

  // ----- where the promise fails -----

  /** A node that closes itself with `unevaluatedProperties`, has any plain assertions beside it, and
      leaves `additionalProperties` to its default. */
  predicate FlatClosed(kw: Keywords) {
    && KUnevaluatedProperties in kw && kw[KUnevaluatedProperties] == One(Flag(false))
    && KAdditional !in kw && KRef !in kw
    && forall k :: k in kw && k != KUnevaluatedProperties ==> kw[k].Data?
  }

  function Closed(kw: Keywords): Document {
    Document(Node(kw), map[])
  }

  /** The same document with the default `additionalProperties` written out. */
  function Opened(kw: Keywords): Document {
    Document(Node(kw[KAdditional := One(Flag(true))]), map[])
  }

  lemma OpenedFaults(kw: Keywords)
    requires FlatClosed(kw)
    ensures LocalFaults(kw, Opened(kw).root.kw) == {}
  {
    hide ValueFaults, PropertyFaults;
    var b := Opened(kw).root.kw;
    assert UnsupportedFaults(kw, b) == {};
    assert RefFaults(kw, b) == {} && DefinitionFaults(kw, b) == {};
    OpenedValueFaults(kw, b);
    OpenedPropertyFaults(kw, b);
  }

  lemma OpenedValueFaults(a: Keywords, b: Keywords)
    requires b == a[KAdditional := One(Flag(true))]
    ensures ValueFaults(a, b) == {}
  {
    hide TypeSignature, EnumSignature, Truthy, ComparedExactly;
    SameSignatures(a, b);
    assert forall k :: k != KAdditional ==> Get(a, k) == Get(b, k);
  }

  lemma SameSignatures(a: Keywords, b: Keywords)
    requires b == a[KAdditional := One(Flag(true))]
    ensures TypeSignature(a) == TypeSignature(b) && EnumSignature(a) == EnumSignature(b)
    ensures !ComparedExactly(KAdditional)
  {
    assert forall k :: k != KAdditional ==> Get(a, k) == Get(b, k);
  }

  lemma OpenedPropertyFaults(a: Keywords, b: Keywords)
    requires FlatClosed(a) && b == a[KAdditional := One(Flag(true))]
    ensures PropertyFaults(a, b) == {}
  {
    hide PropertyFaults;
    assert forall k :: k != KAdditional ==> Get(a, k) == Get(b, k);
    assert Properties(a) == map[] && Properties(b) == map[];
    assert RequiredNames(a) == RequiredNames(b);
    NothingAdded(a, b);
  }

  lemma NothingAdded(a: Keywords, b: Keywords)
    requires Properties(a) == map[] == Properties(b) && RequiredNames(a) == RequiredNames(b)
    requires Additional(a) == Additional(b) && (KItems in a <==> KItems in b)
    ensures PropertyFaults(a, b) == {}
  {
    hide RequiredNames, Additional, Properties, AdditionIsSafe;
  }

  lemma OpenedIsSilent(kw: Keywords)
    requires FlatClosed(kw)
    ensures Compatible(Closed(kw), Opened(kw))
  {
    hide LocalFaults;
    var before, after := Closed(kw), Opened(kw);
    var x, y := before.root, after.root;
    var r: Pairs := {(x, y)};
    OpenedFaults(kw);
    assert NodeAt(x, []) == Some(x) && NodeAt(y, []) == Some(y);
    assert IsNodeOf(before, x) && IsNodeOf(after, y);
    forall step | ChildAt(x, step).Some? && ChildAt(y, step).Some?
      ensures Related(r, ChildAt(x, step).value, ChildAt(y, step).value)
    {}
    RootBisimulation(before, after, r, x, y);
  }

  lemma RootBisimulation(before: Document, after: Document, r: Pairs, x: Schema, y: Schema)
    requires x.Node? && y.Node? && r == {(x, y)} && before.root == x && after.root == y
    requires IsNodeOf(before, x) && IsNodeOf(after, y) && LocalFaults(x.kw, y.kw) == {}
    requires StepsRelated(r, x, y) && RefsRelated(before, after, r, x, y)
    ensures Compatible(before, after)
  {
    hide LocalFaults, StepsRelated, RefsRelated, IsNodeOf;
    assert Bisimulation(before, after, r);
  }

  /** The plain assertions of the node. */
  predicate AssertionsHold(v: Vocabulary, kw: Keywords, inst: Json) {
    forall k :: k in kw && kw[k].Data? && !Passive(k) ==> HoldsData(v, kw, k, kw[k].json, inst)
  }

  /** The comparison is silent, yet the old document accepts only the empty object and the new one every
      object the assertions allow: `unevaluatedProperties` sees the written policy, not the default. */
  lemma SilentYetDifferent(kw: Keywords, v: Vocabulary, m: map<string, Json>)
    requires FlatClosed(kw)
    ensures Compatible(Closed(kw), Opened(kw))
    ensures Settles(Closed(kw), v, Obj(m), AssertionsHold(v, kw, Obj(m)) && m == map[])
    ensures Settles(Opened(kw), v, Obj(m), AssertionsHold(v, kw, Obj(m)))
  {
    hide Accepts, Compatible, Closed, Opened, AssertionsHold, FlatClosed;
    OpenedIsSilent(kw);
    forall fuel: nat, bottom: bool
      ensures Accepts(Closed(kw), v, fuel, bottom, Closed(kw).root, Obj(m)) == (AssertionsHold(v, kw, Obj(m)) && m == map[])
      ensures Accepts(Opened(kw), v, fuel, bottom, Opened(kw).root, Obj(m)) == AssertionsHold(v, kw, Obj(m))
    {
      ClosedAccepts(kw, v, m, fuel, bottom);
      OpenedAccepts(kw, v, m, fuel, bottom);
    }
    assert SettlesBy(Closed(kw), v, Obj(m), AssertionsHold(v, kw, Obj(m)) && m == map[], 0);
    assert SettlesBy(Opened(kw), v, Obj(m), AssertionsHold(v, kw, Obj(m)), 0);
  }

  lemma ClosedAccepts(kw: Keywords, v: Vocabulary, m: map<string, Json>, fuel: nat, bottom: bool)
    requires FlatClosed(kw)
    ensures Accepts(Closed(kw), v, fuel, bottom, Closed(kw).root, Obj(m)) <==> AssertionsHold(v, kw, Obj(m)) && m == map[]
  {
    hide HoldsData, Evaluates, IsAdditional;
    var d, inst := Closed(kw), Obj(m);
    forall n | n in m ensures !Evaluates(d, v, fuel, bottom, d.root, inst, Member(n), false) {
      ClosedEvaluatesNothing(kw, v, inst, n, fuel, bottom);
    }
    forall n ensures !Accepts(d, v, fuel, bottom, Flag(false), if n in m then m[n] else Null) {}
    assert HoldsOne(d, v, fuel, bottom, d.root, KUnevaluatedProperties, Flag(false), inst) <==> m == map[];
    assert Holds(d, v, fuel, bottom, d.root, KUnevaluatedProperties, inst) <==> m == map[];
    forall k | k in kw && k != KUnevaluatedProperties
      ensures Holds(d, v, fuel, bottom, d.root, k, inst) == (Passive(k) || HoldsData(v, kw, k, kw[k].json, inst))
    {}
  }

  lemma ClosedEvaluatesNothing(kw: Keywords, v: Vocabulary, inst: Json, n: string, fuel: nat, bottom: bool)
    requires FlatClosed(kw)
    ensures !Evaluates(Closed(kw), v, fuel, bottom, Closed(kw).root, inst, Member(n), false)
  {
    var d := Closed(kw);
    EvaluatesIs(d, v, fuel, bottom, d.root, inst, Member(n), false);
  }

  lemma OpenedAccepts(kw: Keywords, v: Vocabulary, m: map<string, Json>, fuel: nat, bottom: bool)
    requires FlatClosed(kw)
    ensures Accepts(Opened(kw), v, fuel, bottom, Opened(kw).root, Obj(m)) <==> AssertionsHold(v, kw, Obj(m))
  {
    hide HoldsData, IsAdditional;
    var d, inst := Opened(kw), Obj(m);
    forall n | n in m ensures Evaluates(d, v, fuel, bottom, d.root, inst, Member(n), false) {
      assert LooksAt(v, d.root.kw, Member(n));
    }
    assert HoldsOne(d, v, fuel, bottom, d.root, KUnevaluatedProperties, Flag(false), inst);
    assert HoldsOne(d, v, fuel, bottom, d.root, KAdditional, Flag(true), inst);
    forall k | k in kw && k != KUnevaluatedProperties
      ensures Holds(d, v, fuel, bottom, d.root, k, inst) == (Passive(k) || HoldsData(v, kw, k, kw[k].json, inst))
    {
      assert d.root.kw[k] == kw[k];
      SameRequired(v, kw, d.root.kw, k, inst);
    }
  }

  lemma SameRequired(v: Vocabulary, a: Keywords, b: Keywords, k: Key, inst: Json)
    requires b == a[KAdditional := One(Flag(true))] && k in a && k != KAdditional && a[k].Data?
    ensures HoldsData(v, a, k, a[k].json, inst) == HoldsData(v, b, k, a[k].json, inst)
  {
    assert Get(a, KRequired) == Get(b, KRequired);
    assert RequiredNames(a) == RequiredNames(b);
  }
}
