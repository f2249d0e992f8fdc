/** What a schema accepts: the keywords of JSON Schema Draft 2020-12 that look at subschemas are
    given their meaning, every other assertion is an arbitrary predicate. `$ref` costs one unit of
    fuel, so a recursive schema is read to any chosen depth; `bottom` is the verdict at that depth. */
module WireValidator {
  import opened Wrappers
  import opened WireSchema

  /** Readings of the keywords the model leaves abstract. */
  datatype Vocabulary = Vocabulary(
    asserts: (Key, Keyword, Json) -> bool,
    hasType: (Json, Json) -> bool,
    matches: (string, string) -> bool,
    containsOk: (Option<Keyword>, Option<Keyword>, nat) -> bool
  )

  function TypesOf(v: Keyword): multiset<Json> {
    match v
    case Data(Arr(ts)) => multiset(ts)
    case Data(t) => multiset{t}
    case _ => multiset{}
  }

  function ValuesOf(v: Keyword): multiset<Json> {
    match v
    case Data(Arr(es)) => multiset(es)
    case _ => multiset{}
  }

  function RequiredNames(kw: map<Key, Keyword>): set<string> {
    match Get(kw, KRequired)
    case Some(Data(Arr(names))) => set i | 0 <= i < |names| && names[i].Str? :: names[i].s
    case _ => {}
  }

  function Properties(kw: map<Key, Keyword>): map<string, Schema> {
    match Get(kw, KProperties)
    case Some(Named(m)) => m
    case _ => map[]
  }

  function PrefixLength(kw: map<Key, Keyword>): nat {
    match Get(kw, KPrefixItems)
    case Some(Many(cs)) => |cs|
    case _ => 0
  }

  /** Keywords that never reject: identification, annotation, and the branches `if` looks at. */
  predicate Passive(k: Key) {
    || k.KSchema? || k.KId? || k.KDefs? || k.KDefinitions? || k.KClosedUnion? || k.KAnnotation?
    || k.KThen? || k.KElse? || k.KContentSchema?
  }

  /** `additionalProperties` looks at the members no sibling names or matches. */
  predicate IsAdditional(v: Vocabulary, kw: map<Key, Keyword>, name: string) {
    && name !in Properties(kw)
    && match Get(kw, KPatternProperties)
       case Some(Named(m)) => forall p :: p in m ==> !v.matches(p, name)
       case _ => true
  }

  /** A part of an instance that `unevaluatedProperties` or `unevaluatedItems` asks about. */
  datatype Mark = Member(name: string) | Item(index: nat)

  /** The node's own object and array keywords look at the part. */
  predicate LooksAt(v: Vocabulary, kw: map<Key, Keyword>, mark: Mark) {
    match mark
    case Member(n) => !IsAdditional(v, kw, n) || KAdditional in kw
    case Item(i) => i < PrefixLength(kw) || KItems in kw
  }

  function UnevaluatedKey(mark: Mark): Key {
    if mark.Member? then KUnevaluatedProperties else KUnevaluatedItems
  }

  /** Subschemas applied to the instance itself; the branches of `if` depend on its verdict. */
  predicate InPlace(step: Step, inst: Json) {
    match step
    case Element(k, _) => k.KAllOf? || k.KAnyOf? || k.KOneOf?
    case Child(k) => k.KIf? || k.KThen? || k.KElse?
    case Entry(k, n) => k.KDependentSchemas? && inst.Obj? && n in inst.members
  }

  ghost predicate Accepts(d: Document, v: Vocabulary, fuel: nat, bottom: bool, s: Schema, inst: Json)
    decreases fuel, s, 5
  {
    match s
    case Flag(b) => b
    case Node(kw) => forall k :: k in kw ==> Holds(d, v, fuel, bottom, s, k, inst)
  }

  ghost predicate Holds(d: Document, v: Vocabulary, fuel: nat, bottom: bool, s: Schema, k: Key, inst: Json)
    requires s.Node?
    decreases fuel, s, 4
  {
    if k !in s.kw || Passive(k) then true
    else if k.KRef? then HoldsRef(d, v, fuel, bottom, s, inst)
    else
      match s.kw[k]
      case Data(j) => HoldsData(v, s.kw, k, j, inst)
      case One(c) => HoldsOne(d, v, fuel, bottom, s, k, c, inst)
      case Many(cs) => HoldsMany(d, v, fuel, bottom, s, k, cs, inst)
      case Named(m) => HoldsNamed(d, v, fuel, bottom, s, k, m, inst)
  }

  ghost predicate HoldsRef(d: Document, v: Vocabulary, fuel: nat, bottom: bool, s: Schema, inst: Json)
    requires s.Node?
    decreases fuel, s, 3
  {
    var t := Target(d, Get(s.kw, KRef));
    if fuel == 0 || t.None? then bottom else Accepts(d, v, fuel - 1, bottom, t.value, inst)
  }

  predicate HasOneType(v: Vocabulary, types: multiset<Json>, inst: Json) {
    exists t :: t in types && v.hasType(t, inst)
  }

  predicate HoldsData(v: Vocabulary, kw: map<Key, Keyword>, k: Key, j: Json, inst: Json) {
    if k.KType? then HasOneType(v, TypesOf(Data(j)), inst)
    else if k.KConst? then inst == j
    else if k.KEnum? then inst in ValuesOf(Data(j))
    else if k.KRequired? then inst.Obj? ==> RequiredNames(kw) <= inst.members.Keys
    else v.asserts(k, Data(j), inst)
  }

  ghost predicate HoldsOne(d: Document, v: Vocabulary, fuel: nat, bottom: bool, s: Schema, k: Key, c: Schema, inst: Json)
    requires s.Node? && k in s.kw && s.kw[k] == One(c)
    decreases fuel, s, 3
  {
    if k.KNot? then !Accepts(d, v, fuel, bottom, c, inst)
    else if k.KIf? then
      if Accepts(d, v, fuel, bottom, c, inst)
      then ChildAt(s, Child(KThen)).Some? ==> Accepts(d, v, fuel, bottom, ChildAt(s, Child(KThen)).value, inst)
      else ChildAt(s, Child(KElse)).Some? ==> Accepts(d, v, fuel, bottom, ChildAt(s, Child(KElse)).value, inst)
    else if k.KContains? then
      inst.Arr? ==> v.containsOk(Get(s.kw, KOther("minContains")), Get(s.kw, KOther("maxContains")),
        |ItemsAccepted(d, v, fuel, bottom, s, c, inst.items)|)
    else if k.KPropertyNames? then
      inst.Obj? ==> forall n :: n in inst.members ==> Accepts(d, v, fuel, bottom, c, Str(n))
    else if k.KAdditional? then
      inst.Obj? ==> forall n :: n in inst.members && IsAdditional(v, s.kw, n) ==> Accepts(d, v, fuel, bottom, c, inst.members[n])
    else if k.KItems? then
      inst.Arr? ==> forall i :: PrefixLength(s.kw) <= i < |inst.items| ==> Accepts(d, v, fuel, bottom, c, inst.items[i])
    else if k.KUnevaluatedProperties? then
      inst.Obj? ==> forall n :: n in inst.members && !Evaluates(d, v, fuel, bottom, s, inst, Member(n), false) ==>
        Accepts(d, v, fuel, bottom, c, inst.members[n])
    else if k.KUnevaluatedItems? then
      inst.Arr? ==> forall i: nat :: i < |inst.items| && !Evaluates(d, v, fuel, bottom, s, inst, Item(i), false) ==>
        Accepts(d, v, fuel, bottom, c, inst.items[i])
    else true
  }

  /** The part is evaluated by this node: by its own keywords, by an accepted in-place subschema,
      through an accepted `$ref`, or (seen from outside) by its own unevaluated keyword. */
  ghost predicate Evaluates(d: Document, v: Vocabulary, fuel: nat, bottom: bool, s: Schema, inst: Json, mark: Mark, outside: bool)
    decreases fuel, s, 2
  {
    s.Node? &&
    ( || LooksAt(v, s.kw, mark)
      || (outside && UnevaluatedKey(mark) in s.kw)
      || ContainsMatches(d, v, fuel, bottom, s, inst, mark)
      || EvaluatesThroughRef(d, v, fuel, bottom, s, inst, mark)
      || exists step :: EvaluatesAt(d, v, fuel, bottom, s, inst, mark, step))
  }

  ghost predicate ContainsMatches(d: Document, v: Vocabulary, fuel: nat, bottom: bool, s: Schema, inst: Json, mark: Mark)
    decreases fuel, s, 1
  {
    var c := ChildAt(s, Child(KContains));
    mark.Item? && inst.Arr? && mark.index < |inst.items| && c.Some? && Accepts(d, v, fuel, bottom, c.value, inst.items[mark.index])
  }

  ghost predicate EvaluatesThroughRef(d: Document, v: Vocabulary, fuel: nat, bottom: bool, s: Schema, inst: Json, mark: Mark)
    requires s.Node?
    decreases fuel, s, 1
  {
    KRef in s.kw &&
      var t := Target(d, Get(s.kw, KRef));
      if fuel == 0 || t.None? then bottom
      else Accepts(d, v, fuel - 1, bottom, t.value, inst) && Evaluates(d, v, fuel - 1, bottom, t.value, inst, mark, true)
  }

  ghost predicate EvaluatesAt(d: Document, v: Vocabulary, fuel: nat, bottom: bool, s: Schema, inst: Json, mark: Mark, step: Step)
    decreases fuel, s, 1
  {
    && ChildAt(s, step).Some? && InPlace(step, inst)
    && (step == Child(KThen) || step == Child(KElse) ==>
          && ChildAt(s, Child(KIf)).Some?
          && Accepts(d, v, fuel, bottom, ChildAt(s, Child(KIf)).value, inst) == (step == Child(KThen)))
    && Accepts(d, v, fuel, bottom, ChildAt(s, step).value, inst)
    && Evaluates(d, v, fuel, bottom, ChildAt(s, step).value, inst, mark, true)
  }

  ghost predicate HoldsMany(d: Document, v: Vocabulary, fuel: nat, bottom: bool, s: Schema, k: Key, cs: seq<Schema>, inst: Json)
    requires s.Node? && k in s.kw && s.kw[k] == Many(cs)
    decreases fuel, s, 3
  {
    if k.KAllOf? then forall i :: 0 <= i < |cs| ==> Accepts(d, v, fuel, bottom, cs[i], inst)
    else if k.KAnyOf? then exists i :: 0 <= i < |cs| && Accepts(d, v, fuel, bottom, cs[i], inst)
    else if k.KOneOf? then |BranchesAccepting(d, v, fuel, bottom, s, k, cs, inst)| == 1
    else if k.KPrefixItems? then
      inst.Arr? ==> forall i :: 0 <= i < |cs| && i < |inst.items| ==> Accepts(d, v, fuel, bottom, cs[i], inst.items[i])
    else true
  }

  ghost predicate HoldsNamed(d: Document, v: Vocabulary, fuel: nat, bottom: bool, s: Schema, k: Key, m: map<string, Schema>, inst: Json)
    requires s.Node? && k in s.kw && s.kw[k] == Named(m)
    decreases fuel, s, 3
  {
    if k.KProperties? then
      inst.Obj? ==> forall n :: n in m && n in inst.members ==> Accepts(d, v, fuel, bottom, m[n], inst.members[n])
    else if k.KPatternProperties? then
      inst.Obj? ==> forall p, n :: p in m && n in inst.members && v.matches(p, n) ==> Accepts(d, v, fuel, bottom, m[p], inst.members[n])
    else if k.KDependentSchemas? then
      inst.Obj? ==> forall n :: n in m && n in inst.members ==> Accepts(d, v, fuel, bottom, m[n], inst)
    else true
  }

  ghost function ItemsAccepted(d: Document, v: Vocabulary, fuel: nat, bottom: bool, s: Schema, c: Schema, items: seq<Json>): set<nat>
    requires c < s
    decreases fuel, s, 0
  {
    set i: nat | 0 <= i < |items| && Accepts(d, v, fuel, bottom, c, items[i])
  }

  ghost function BranchesAccepting(d: Document, v: Vocabulary, fuel: nat, bottom: bool, s: Schema, k: Key, cs: seq<Schema>, inst: Json): set<nat>
    requires s.Node? && k in s.kw && s.kw[k] == Many(cs)
    decreases fuel, s, 0
  {
    set i: nat | 0 <= i < |cs| && Accepts(d, v, fuel, bottom, cs[i], inst)
  }

  /** The document's verdict on an instance: what every sufficiently deep reading says. */
  ghost predicate Settles(d: Document, v: Vocabulary, inst: Json, verdict: bool) {
    exists n: nat :: SettlesBy(d, v, inst, verdict, n)
  }

  ghost predicate SettlesBy(d: Document, v: Vocabulary, inst: Json, verdict: bool, n: nat) {
    forall fuel: nat, bottom: bool :: n <= fuel ==> Accepts(d, v, fuel, bottom, d.root, inst) == verdict
  }

  /** No object at any depth has a member of one of these names. */
  ghost predicate Avoids(added: set<string>, inst: Json) {
    match inst
    case Obj(m) => forall n :: n in m ==> n !in added && Avoids(added, m[n])
    case Arr(items) => forall i :: 0 <= i < |items| ==> Avoids(added, items[i])
    case _ => true
  }
}
