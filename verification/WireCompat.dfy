/** The same-major compatibility comparison: the local checks on a pair of schema nodes, and the
    walk over the two documents with its set of visited pairs. */
module WireCompat {
  import opened Wrappers
  import opened WireSchema
  import opened WireValidator

  datatype Fault =
    | Unsupported(key: Key)
    | RefChanged
    | FlagChanged
    | KeywordChanged(key: Key)
    | TypeChanged
    | EnumChanged
    | ClosedUnionMarkerChanged
    | RequiredChanged
    | PropertyRemoved(name: string)
    | NewPropertyRequired(name: string)
    | AdditionNotSafe(name: string)
    | AdditionalPolicyChanged
    | ItemPolicyChanged
    | DefinitionNamesChanged

  datatype WireError = WireError(path: seq<Segment>, fault: Fault)
  datatype Segment = Into(step: Step) | ThroughRef

  type Keywords = map<Key, Keyword>

  // ----- the local checks -----

  function UnsupportedFaults(a: Keywords, b: Keywords): set<Fault> {
    set k | k in a.Keys + b.Keys && Unimplemented(k) && Get(a, k) != Get(b, k) :: Unsupported(k)
  }

  function TypeSignature(kw: Keywords): (bool, multiset<Json>) {
    match Get(kw, KType)
    case Some(Data(Arr(ts))) => (true, multiset(ts))
    case Some(Data(t)) => (false, multiset{t})
    case _ => (false, multiset{Null})
  }

  function EnumSignature(kw: Keywords): Option<multiset<Json>> {
    match Get(kw, KEnum)
    case Some(v) => Some(ValuesOf(v))
    case None => None
  }

  predicate Truthy(v: Option<Keyword>) {
    match v
    case None => false
    case Some(Data(j)) =>
      (match j
       case Null => false
       case Boolean(b) => b
       case Number(n) => n != 0
       case Str(s) => s != ""
       case Arr(items) => items != []
       case Obj(m) => m != map[])
    case _ => true
  }

  function When(changed: bool, fault: Fault): set<Fault> {
    if changed then {fault} else {}
  }

  predicate ComparedExactly(k: Key) {
    k.KSchema? || k.KId? || k.KConst? || k.KScalar?
  }

  function ValueFaults(a: Keywords, b: Keywords): set<Fault> {
    (set k | k in a.Keys + b.Keys && ComparedExactly(k) && Get(a, k) != Get(b, k) :: KeywordChanged(k))
    + When(TypeSignature(a) != TypeSignature(b), TypeChanged)
    + When(EnumSignature(a) != EnumSignature(b), EnumChanged)
    + When((KEnum in a || KEnum in b) && Truthy(Get(a, KClosedUnion)) != Truthy(Get(b, KClosedUnion)), ClosedUnionMarkerChanged)
  }

  /** A property may be added only where the old schema ignores unknown members and neither side
      has a keyword the comparison does not understand. */
  predicate AdditionIsSafe(a: Keywords, b: Keywords) {
    && Additional(a) == Flag(true)
    && forall k :: k in a.Keys + b.Keys ==> !Unimplemented(k)
  }

  function Additional(kw: Keywords): Schema {
    match Get(kw, KAdditional)
    case Some(One(s)) => s
    case _ => Flag(true)
  }

  function PropertyFaults(a: Keywords, b: Keywords): set<Fault> {
    var was, now := Properties(a), Properties(b);
    When(RequiredNames(a) != RequiredNames(b), RequiredChanged)
    + (set n | n in was && n !in now :: PropertyRemoved(n))
    + (set n | n in now && n !in was && n in RequiredNames(b) :: NewPropertyRequired(n))
    + (set n | n in now && n !in was && n !in RequiredNames(b) && !AdditionIsSafe(a, b) :: AdditionNotSafe(n))
    + When(!(Additional(a).Node? && Additional(b).Node?) && Additional(a) != Additional(b), AdditionalPolicyChanged)
    + When((KItems in a) != (KItems in b), ItemPolicyChanged)
  }

  function DefinitionFaults(a: Keywords, b: Keywords): set<Fault> {
    match (Get(a, KDefs), Get(b, KDefs))
    case (Some(Named(m)), Some(Named(n))) => When(m.Keys != n.Keys, DefinitionNamesChanged)
    case _ => {}
  }

  function RefFaults(a: Keywords, b: Keywords): set<Fault> {
    When(Get(a, KRef) != Get(b, KRef), RefChanged)
  }

  function LocalFaults(a: Keywords, b: Keywords): set<Fault> {
    UnsupportedFaults(a, b) + RefFaults(a, b) + ValueFaults(a, b) + PropertyFaults(a, b) + DefinitionFaults(a, b)
  }

  // ----- compatibility as a relation -----

  type Pairs = set<(Schema, Schema)>

  /** Two schemas a comparison of them would find nothing wrong with, given the pairs in r. */
  predicate Related(r: Pairs, x: Schema, y: Schema) {
    if x.Node? && y.Node? then (x, y) in r else x == y
  }

  ghost predicate StepsRelated(r: Pairs, x: Schema, y: Schema) {
    forall step :: ChildAt(x, step).Some? && ChildAt(y, step).Some? ==>
      Related(r, ChildAt(x, step).value, ChildAt(y, step).value)
  }

  ghost predicate RefsRelated(before: Document, after: Document, r: Pairs, x: Schema, y: Schema)
    requires x.Node? && y.Node?
  {
    KRef in x.kw ==>
      && Target(before, Get(x.kw, KRef)).Some? && Target(after, Get(y.kw, KRef)).Some?
      && Related(r, Target(before, Get(x.kw, KRef)).value, Target(after, Get(y.kw, KRef)).value)
  }

  /** Every pair passes the local checks and leads only to pairs that do. */
  ghost predicate Bisimulation(before: Document, after: Document, r: Pairs) {
    forall x, y :: (x, y) in r ==>
      && x.Node? && y.Node? && IsNodeOf(before, x) && IsNodeOf(after, y)
      && LocalFaults(x.kw, y.kw) == {}
      && StepsRelated(r, x, y) && RefsRelated(before, after, r, x, y)
  }

  ghost predicate Compatible(before: Document, after: Document) {
    exists r :: Bisimulation(before, after, r) && Related(r, before.root, after.root)
  }

  /** `added` holds every property name the new document adds at a related pair. */
  ghost predicate NamesAdded(r: Pairs, added: set<string>) {
    forall x, y, n :: (x, y) in r && x.Node? && y.Node? && n in Properties(y.kw) && n !in Properties(x.kw) ==> n in added
  }

  // ----- what the local checks guarantee -----

  lemma RawEqual(a: Keywords, b: Keywords, k: Key)
    requires LocalFaults(a, b) == {}
    requires Unimplemented(k) || ComparedExactly(k) || k.KRef?
    ensures Get(a, k) == Get(b, k)
  {
    assert k in a.Keys + b.Keys && Unimplemented(k) && Get(a, k) != Get(b, k) ==> Unsupported(k) in UnsupportedFaults(a, b);
    assert k in a.Keys + b.Keys && ComparedExactly(k) && Get(a, k) != Get(b, k) ==> KeywordChanged(k) in ValueFaults(a, b);
    assert Get(a, KRef) != Get(b, KRef) ==> RefChanged in RefFaults(a, b);
  }

  lemma SignaturesEqual(a: Keywords, b: Keywords)
    requires LocalFaults(a, b) == {}
    ensures TypeSignature(a) == TypeSignature(b) && EnumSignature(a) == EnumSignature(b)
  {
    assert ValueFaults(a, b) == {};
    assert TypeSignature(a) != TypeSignature(b) ==> TypeChanged in ValueFaults(a, b);
    assert EnumSignature(a) != EnumSignature(b) ==> EnumChanged in ValueFaults(a, b);
  }

  lemma PropertiesGrow(a: Keywords, b: Keywords)
    requires LocalFaults(a, b) == {}
    ensures RequiredNames(a) == RequiredNames(b)
    ensures Properties(a).Keys <= Properties(b).Keys
    ensures (Additional(a).Node? && Additional(b).Node?) || Additional(a) == Additional(b)
    ensures KItems in a <==> KItems in b
  {
    var faults := PropertyFaults(a, b);
    assert faults == {};
    assert RequiredNames(a) != RequiredNames(b) ==> RequiredChanged in faults;
    forall n | n in Properties(a) ensures n in Properties(b) {
      assert n !in Properties(b) ==> PropertyRemoved(n) in faults;
    }
    assert !(Additional(a).Node? && Additional(b).Node?) && Additional(a) != Additional(b) ==> AdditionalPolicyChanged in faults;
    assert (KItems in a) != (KItems in b) ==> ItemPolicyChanged in faults;
  }
}
