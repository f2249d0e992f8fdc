/** When a property may be added: what the local checks ask of a pair of nodes, written out; that a
    silent addition is ignored by the old side; and exactly when adding one to a document is silent. */
module WireAdditions {
  import opened Wrappers
  import opened WireSchema
  import opened WireValidator
  import opened WireCompat

  /** Keywords the comparison has no rule for: unchanged is safe, and no property may be added beside them. */
  predicate NoRuleFor(k: Key) {
    match k
    case KAllOf => true
    case KAnyOf => true
    case KOneOf => true
    case KPrefixItems => true
    case KNot => true
    case KIf => true
    case KThen => true
    case KElse => true
    case KContains => true
    case KPropertyNames => true
    case KUnevaluatedProperties => true
    case KUnevaluatedItems => true
    case KContentSchema => true
    case KDependentSchemas => true
    case KPatternProperties => true
    case KDefinitions => true
    case KOther(_) => true
    case _ => false
  }

  /** Keywords that must stay exactly as they are. */
  predicate Frozen(k: Key) {
    NoRuleFor(k) || k.KRef? || k.KSchema? || k.KId? || k.KConst? || k.KScalar?
  }

  /** Unknown members are ignored. */
  predicate Open(kw: Keywords) {
    KAdditional in kw && kw[KAdditional].One? ==> kw[KAdditional].schema == Flag(true)
  }

  /** The closed-union marker is there and not an empty value. */
  predicate Marked(kw: Keywords) {
    && KClosedUnion in kw
    && kw[KClosedUnion] !in {Data(Null), Data(Boolean(false)), Data(Number(0)), Data(Str("")), Data(Arr([])), Data(Obj(map[]))}
  }

  /** The conditions a property addition must meet at a node. */
  ghost predicate MayAdd(a: Keywords, b: Keywords, n: string) {
    && n !in RequiredNames(b) && Open(a)
    && forall k :: NoRuleFor(k) ==> k !in a && k !in b
  }

  /** What one pair of nodes must agree on. */
  ghost predicate Agree(a: Keywords, b: Keywords) {
    && (forall k :: Frozen(k) ==> Get(a, k) == Get(b, k))
    && TypeSignature(a) == TypeSignature(b) && EnumSignature(a) == EnumSignature(b)
    && (KEnum in a || KEnum in b ==> (Marked(a) <==> Marked(b)))
    && RequiredNames(a) == RequiredNames(b)
    && (forall n :: n in Properties(a) ==> n in Properties(b))
    && (forall n :: n in Properties(b) && n !in Properties(a) ==> MayAdd(a, b, n))
    && ((Additional(a).Node? && Additional(b).Node?) || Additional(a) == Additional(b))
    && (KItems in a <==> KItems in b)
    && (KDefs in a && KDefs in b && a[KDefs].Named? && b[KDefs].Named? ==> a[KDefs].byName.Keys == b[KDefs].byName.Keys)
  }

  predicate Descended(step: Step) {
    match step
    case Child(k) => k in {
      KAdditional, KItems, KNot, KIf, KThen, KElse, KContains, KPropertyNames, KUnevaluatedProperties, KUnevaluatedItems, KContentSchema}
    case Element(k, _) => k in {KAllOf, KAnyOf, KOneOf, KPrefixItems}
    case Entry(k, _) => k in {KProperties, KDefs, KDefinitions, KDependentSchemas, KPatternProperties}
  }

  /** The comparison descends exactly into the subschemas below these keywords. */
  lemma DescendsInto(s: Schema, step: Step)
    ensures ChildAt(s, step) == if Descended(step) then SubAt(s, step) else None
  {}

  lemma KeysAreGrouped(k: Key)
    ensures NoRuleFor(k) <==> Unimplemented(k)
    ensures Frozen(k) <==> Unimplemented(k) || ComparedExactly(k) || k.KRef?
  {}

  lemma MarkedIff(kw: Keywords)
    ensures Marked(kw) <==> Truthy(Get(kw, KClosedUnion))
  {}

  lemma AddedIsSafe(a: Keywords, b: Keywords)
    ensures AdditionIsSafe(a, b) <==> Open(a) && forall k :: NoRuleFor(k) ==> k !in a && k !in b
  {
    hide Unimplemented, NoRuleFor;
    forall k ensures NoRuleFor(k) <==> Unimplemented(k) { KeysAreGrouped(k); }
  }

  lemma PropertyFaultsAre(a: Keywords, b: Keywords)
    ensures PropertyFaults(a, b) == {} <==>
      && RequiredNames(a) == RequiredNames(b)
      && (forall n :: n in Properties(a) ==> n in Properties(b))
      && (forall n :: n in Properties(b) && n !in Properties(a) ==> n !in RequiredNames(b) && AdditionIsSafe(a, b))
      && ((Additional(a).Node? && Additional(b).Node?) || Additional(a) == Additional(b))
      && (KItems in a <==> KItems in b)
  {
    hide AdditionIsSafe, Properties, RequiredNames, Additional;
    var faults := PropertyFaults(a, b);
    if faults == {} {
      assert RequiredNames(a) != RequiredNames(b) ==> RequiredChanged in faults;
      forall n | n in Properties(a) ensures n in Properties(b) {
        assert n !in Properties(b) ==> PropertyRemoved(n) in faults;
      }
      forall n | n in Properties(b) && n !in Properties(a) ensures n !in RequiredNames(b) && AdditionIsSafe(a, b) {
        assert n in RequiredNames(b) ==> NewPropertyRequired(n) in faults;
        assert n !in RequiredNames(b) && !AdditionIsSafe(a, b) ==> AdditionNotSafe(n) in faults;
      }
      assert !(Additional(a).Node? && Additional(b).Node?) && Additional(a) != Additional(b) ==> AdditionalPolicyChanged in faults;
      assert (KItems in a) != (KItems in b) ==> ItemPolicyChanged in faults;
    }
  }

  lemma ValueFaultsAre(a: Keywords, b: Keywords)
    ensures ValueFaults(a, b) == {} <==>
      && (forall k :: ComparedExactly(k) ==> Get(a, k) == Get(b, k))
      && TypeSignature(a) == TypeSignature(b) && EnumSignature(a) == EnumSignature(b)
      && (KEnum in a || KEnum in b ==> (Truthy(Get(a, KClosedUnion)) <==> Truthy(Get(b, KClosedUnion))))
  {
    hide TypeSignature, EnumSignature, Truthy;
    var faults := ValueFaults(a, b);
    if faults == {} {
      forall k | ComparedExactly(k) ensures Get(a, k) == Get(b, k) {
        assert k in a.Keys + b.Keys && Get(a, k) != Get(b, k) ==> KeywordChanged(k) in faults;
      }
      assert TypeSignature(a) != TypeSignature(b) ==> TypeChanged in faults;
      assert EnumSignature(a) != EnumSignature(b) ==> EnumChanged in faults;
      assert (KEnum in a || KEnum in b) && Truthy(Get(a, KClosedUnion)) != Truthy(Get(b, KClosedUnion)) ==>
        ClosedUnionMarkerChanged in faults;
    }
  }

  lemma UnsupportedFaultsAre(a: Keywords, b: Keywords)
    ensures UnsupportedFaults(a, b) == {} <==> forall k :: Unimplemented(k) ==> Get(a, k) == Get(b, k)
  {
    hide Unimplemented;
    if UnsupportedFaults(a, b) == {} {
      forall k | Unimplemented(k) ensures Get(a, k) == Get(b, k) {
        assert k in a.Keys + b.Keys && Get(a, k) != Get(b, k) ==> Unsupported(k) in UnsupportedFaults(a, b);
      }
    }
  }

  lemma DefinitionFaultsAre(a: Keywords, b: Keywords)
    ensures DefinitionFaults(a, b) == {} <==>
      (KDefs in a && KDefs in b && a[KDefs].Named? && b[KDefs].Named? ==> a[KDefs].byName.Keys == b[KDefs].byName.Keys)
  {
    assert When(true, DefinitionNamesChanged) == {DefinitionNamesChanged};
  }

  lemma NoneOfFive<T>(p: set<T>, q: set<T>, r: set<T>, s: set<T>, t: set<T>)
    ensures p + q + r + s + t == {} <==> p == {} && q == {} && r == {} && s == {} && t == {}
  {
    assert p <= p + q + r + s + t && q <= p + q + r + s + t && r <= p + q + r + s + t && s <= p + q + r + s + t && t <= p + q + r + s + t;
  }

  /** A pair of nodes has no local fault exactly when the two agree so. */
  lemma FaultFreeIff(a: Keywords, b: Keywords)
    ensures LocalFaults(a, b) == {} <==> Agree(a, b)
  {
    hide UnsupportedFaults, RefFaults, ValueFaults, PropertyFaults, DefinitionFaults, AdditionIsSafe, Unimplemented, NoRuleFor, ComparedExactly,
      TypeSignature, EnumSignature, Truthy, Marked, RequiredNames, Properties, Additional, Open, Frozen;
    NoneOfFive(UnsupportedFaults(a, b), RefFaults(a, b), ValueFaults(a, b), PropertyFaults(a, b), DefinitionFaults(a, b));
    UnsupportedFaultsAre(a, b);
    ValueFaultsAre(a, b);
    PropertyFaultsAre(a, b);
    DefinitionFaultsAre(a, b);
    RefFaultsAre(a, b);
    MarkedIff(a);
    MarkedIff(b);
    AddedIsSafe(a, b);
    forall k ensures Frozen(k) <==> Unimplemented(k) || ComparedExactly(k) || k.KRef? { KeysAreGrouped(k); }
    assert Frozen(KRef);
  }

  lemma RefFaultsAre(a: Keywords, b: Keywords)
    ensures RefFaults(a, b) == {} <==> Get(a, KRef) == Get(b, KRef)
  {
    assert When(true, RefChanged) == {RefChanged};
  }

  // ----- what an allowed addition means to the old side -----

  /** Keywords that look at the instance as a whole rather than member by member. */
  predicate WholeInstance(k: Key) {
    k.KRef? || k.KType? || k.KConst? || k.KEnum? || k.KScalar?
  }

  function With(m: map<string, Json>, n: string, value: Json): Json {
    Obj(m[n := value])
  }

  function WithoutMember(m: map<string, Json>, n: string): Json {
    Obj(m - {n})
  }

  /** Where a silent comparison relates two nodes and the new one has a property the old one lacks, the old node's
      keywords, other than those about the whole instance, hold with a member of that name exactly when they
      hold without it, whatever its value. */
  lemma AdditionIgnored(
    before: Document, after: Document, r: Pairs, x: Schema, y: Schema, n: string,
    v: Vocabulary, fuel: nat, bottom: bool, m: map<string, Json>, value: Json, k: Key
  )
    requires Bisimulation(before, after, r) && (x, y) in r && x.Node? && y.Node? && ShapeOk(x)
    requires n in Properties(y.kw) && n !in Properties(x.kw) && !WholeInstance(k)
    ensures Holds(before, v, fuel, bottom, x, k, With(m, n, value)) <==> Holds(before, v, fuel, bottom, x, k, WithoutMember(m, n))
  {
    hide Bisimulation, LocalFaults, Holds, RequiredNames, Properties, With, WithoutMember;
    NodesAgree(before, after, r, x, y);
    FaultFreeIff(x.kw, y.kw);
    hide Agree;
    AddingAllowed(x.kw, y.kw, n);
    if k in x.kw && !Passive(k) {
      match k
      case KProperties =>
        NotNamed(x.kw, n);
        PropertiesIgnore(before, v, fuel, bottom, x, n, m, value);
      case KAdditional => AdditionalIgnores(before, v, fuel, bottom, x, n, m, value);
      case KRequired => RequiredIgnores(before, v, fuel, bottom, x, n, m, value);
      case KItems => ItemsIgnore(before, v, fuel, bottom, x, n, m, value);
      case _ =>
    } else {
      PassiveHolds(before, v, fuel, bottom, x, k, With(m, n, value));
      PassiveHolds(before, v, fuel, bottom, x, k, WithoutMember(m, n));
    }
  }

  lemma AddingAllowed(a: Keywords, b: Keywords, n: string)
    requires Agree(a, b) && n in Properties(b) && n !in Properties(a)
    ensures MayAdd(a, b, n) && n !in RequiredNames(a)
  {
    hide RequiredNames, Properties, TypeSignature, EnumSignature, Marked, Additional;
  }

  lemma NotNamed(kw: Keywords, n: string)
    requires n !in Properties(kw) && KProperties in kw && kw[KProperties].Named?
    ensures n !in kw[KProperties].byName
  {}

  lemma PassiveHolds(d: Document, v: Vocabulary, fuel: nat, bottom: bool, s: Schema, k: Key, inst: Json)
    requires s.Node? && (k !in s.kw || Passive(k))
    ensures Holds(d, v, fuel, bottom, s, k, inst)
  {}

  lemma RequiredIgnores(d: Document, v: Vocabulary, fuel: nat, bottom: bool, s: Schema, n: string, m: map<string, Json>, value: Json)
    requires s.Node? && n !in RequiredNames(s.kw)
    ensures Holds(d, v, fuel, bottom, s, KRequired, With(m, n, value)) <==> Holds(d, v, fuel, bottom, s, KRequired, WithoutMember(m, n))
  {
    hide RequiredNames;
    assert m[n := value].Keys == m.Keys + {n} && (m - {n}).Keys == m.Keys - {n};
  }

  lemma ItemsIgnore(d: Document, v: Vocabulary, fuel: nat, bottom: bool, s: Schema, n: string, m: map<string, Json>, value: Json)
    requires s.Node? && (KItems in s.kw ==> s.kw[KItems].One?)
    ensures Holds(d, v, fuel, bottom, s, KItems, With(m, n, value)) && Holds(d, v, fuel, bottom, s, KItems, WithoutMember(m, n))
  {}

  lemma NodesAgree(before: Document, after: Document, r: Pairs, x: Schema, y: Schema)
    requires Bisimulation(before, after, r) && (x, y) in r
    ensures x.Node? && y.Node? && LocalFaults(x.kw, y.kw) == {}
  {
    hide LocalFaults;
  }

  lemma PropertiesIgnore(d: Document, v: Vocabulary, fuel: nat, bottom: bool, s: Schema, n: string, m: map<string, Json>, value: Json)
    requires s.Node? && KProperties in s.kw && s.kw[KProperties].Named? && n !in s.kw[KProperties].byName
    ensures Holds(d, v, fuel, bottom, s, KProperties, With(m, n, value)) <==> Holds(d, v, fuel, bottom, s, KProperties, WithoutMember(m, n))
  {
    hide Accepts;
    var props := s.kw[KProperties].byName;
    assert forall name :: name in props ==> name != n;
  }

  lemma AdditionalIgnores(d: Document, v: Vocabulary, fuel: nat, bottom: bool, s: Schema, n: string, m: map<string, Json>, value: Json)
    requires s.Node? && KAdditional in s.kw && s.kw[KAdditional] == One(Flag(true))
    ensures Holds(d, v, fuel, bottom, s, KAdditional, With(m, n, value)) && Holds(d, v, fuel, bottom, s, KAdditional, WithoutMember(m, n))
  {}

  /** So the old node's verdict depends on the member at most through those keywords. */
  lemma AdditionKeepsVerdict(
    before: Document, after: Document, r: Pairs, x: Schema, y: Schema, n: string,
    v: Vocabulary, fuel: nat, bottom: bool, m: map<string, Json>, value: Json
  )
    requires Bisimulation(before, after, r) && (x, y) in r && x.Node? && y.Node? && ShapeOk(x)
    requires n in Properties(y.kw) && n !in Properties(x.kw)
    requires forall k :: k in x.kw && WholeInstance(k) ==>
      (Holds(before, v, fuel, bottom, x, k, With(m, n, value)) <==> Holds(before, v, fuel, bottom, x, k, WithoutMember(m, n)))
    ensures Accepts(before, v, fuel, bottom, x, With(m, n, value)) <==> Accepts(before, v, fuel, bottom, x, WithoutMember(m, n))
  {
    hide Holds, Bisimulation, With, WithoutMember;
    forall k | k in x.kw && !WholeInstance(k)
      ensures Holds(before, v, fuel, bottom, x, k, With(m, n, value)) <==> Holds(before, v, fuel, bottom, x, k, WithoutMember(m, n))
    {
      AdditionIgnored(before, after, r, x, y, n, v, fuel, bottom, m, value, k);
    }
  }

  // ----- exactly when an addition is silent -----

  /** The document with one more property at its root. */
  function Adding(d: Document, n: string, schema: Schema): Document
    requires d.root.Node?
  {
    d.(root := Node(d.root.kw[KProperties := Named(Properties(d.root.kw)[n := schema])]))
  }

  /** Every `$ref` in the document resolves. */
  ghost predicate RefsResolve(d: Document) {
    forall at :: NodeAt(d.root, at).Some? && NodeAt(d.root, at).value.Node? && KRef in NodeAt(d.root, at).value.kw ==>
      Resolve(d, Get(NodeAt(d.root, at).value.kw, KRef)).Some?
  }

  lemma AddingKeeps(d: Document, n: string, schema: Schema, step: Step)
    requires d.root.Node? && ShapeOk(d.root) && n !in Properties(d.root.kw)
    ensures SubAt(d.root, step).Some? ==> SubAt(Adding(d, n, schema).root, step) == SubAt(d.root, step)
    ensures step != Entry(KProperties, n) ==> SubAt(Adding(d, n, schema).root, step) == SubAt(d.root, step)
  {}

  lemma AddingKeepsPlaces(d: Document, n: string, schema: Schema, at: Location)
    requires d.root.Node? && ShapeOk(d.root) && n !in Properties(d.root.kw) && at != [] && NodeAt(d.root, at).Some?
    ensures NodeAt(Adding(d, n, schema).root, at) == NodeAt(d.root, at)
  {
    AddingKeeps(d, n, schema, at[0]);
  }

  /** Each node below the root beside itself, and the two roots. */
  ghost function SelfPairs(d: Document, d': Document): Pairs {
    (set at | at in Locations(d.root) && at != [] && NodeAt(d.root, at).Some? && NodeAt(d.root, at).value.Node? ::
      (NodeAt(d.root, at).value, NodeAt(d.root, at).value)) + {(d.root, d'.root)}
  }

  lemma SelfAgrees(kw: Keywords)
    ensures Agree(kw, kw)
  {}

  lemma RelatedBelow(d: Document, d': Document, at: Location)
    requires NodeAt(d.root, at).Some? && at != []
    ensures Related(SelfPairs(d, d'), NodeAt(d.root, at).value, NodeAt(d.root, at).value)
  {
    LocationsComplete(d.root, at);
  }

  /** Adding a property to the root of a document whose references resolve is silent exactly when the property is
      not required, the old root leaves unknown members alone, and neither root has a keyword without a rule. */
  lemma RootAdditionIff(d: Document, n: string, schema: Schema)
    requires d.root.Node? && ShapeOk(d.root) && n !in Properties(d.root.kw) && RefsResolve(d)
    ensures Compatible(d, Adding(d, n, schema)) <==>
      && n !in RequiredNames(d.root.kw)
      && (KAdditional in d.root.kw ==> d.root.kw[KAdditional] == One(Flag(true)))
      && forall k :: NoRuleFor(k) ==> k !in d.root.kw
  {
    hide Bisimulation, SelfPairs, RefsResolve, NoRuleFor, LocalFaults;
    var d' := Adding(d, n, schema);
    var a, b := d.root.kw, d'.root.kw;
    RootsAgree(d, n, schema);
    FaultFreeIff(a, b);
    if Compatible(d, d') {
      var r :| Bisimulation(d, d', r) && Related(r, d.root, d'.root);
      NodesAgree(d, d', r, d.root, d'.root);
    }
    if Agree(a, b) {
      SelfPairsBisimulate(d, n, schema);
      SelfPairsRoot(d, d');
    }
  }

  lemma SelfPairsRoot(d: Document, d': Document)
    ensures (d.root, d'.root) in SelfPairs(d, d')
  {}

  /** The two roots agree exactly on the conditions of the addition. */
  lemma RootsAgree(d: Document, n: string, schema: Schema)
    requires d.root.Node? && ShapeOk(d.root) && n !in Properties(d.root.kw)
    ensures Agree(d.root.kw, Adding(d, n, schema).root.kw) <==>
      && n !in RequiredNames(d.root.kw)
      && (KAdditional in d.root.kw ==> d.root.kw[KAdditional] == One(Flag(true)))
      && forall k :: NoRuleFor(k) ==> k !in d.root.kw
  {
    var a, b := d.root.kw, Adding(d, n, schema).root.kw;
    AddingOnly(d, n, schema);
    assert !NoRuleFor(KProperties);
    hide Agree, Adding, RequiredNames, NoRuleFor, Properties;
    OneMoreAgrees(a, b, n, schema);
  }

  /** Everything but the properties is the same. */
  ghost predicate SameBesides(a: Keywords, b: Keywords) {
    forall k :: k != KProperties ==> Get(a, k) == Get(b, k) && (k in a <==> k in b) && (k in a ==> a[k] == b[k])
  }

  /** With one more property and nothing else new, the two sides agree exactly when it may be added. */
  lemma OneMoreAgrees(a: Keywords, b: Keywords, n: string, schema: Schema)
    requires SameBesides(a, b) && n !in Properties(a) && Properties(b) == Properties(a)[n := schema]
    ensures Agree(a, b) <==> MayAdd(a, b, n)
    ensures RequiredNames(a) == RequiredNames(b)
  {
    SignaturesKept(a, b);
    hide Agree, MayAdd, SameBesides, RequiredNames, Properties;
    assert n in Properties(b);
    if Agree(a, b) { AddingAllowed(a, b, n); }
    if MayAdd(a, b, n) { AllowedAgrees(a, b, n, schema); }
  }

  lemma AllowedAgrees(a: Keywords, b: Keywords, n: string, schema: Schema)
    requires SameBesides(a, b) && n !in Properties(a) && Properties(b) == Properties(a)[n := schema] && MayAdd(a, b, n)
    ensures Agree(a, b)
  {
    SignaturesKept(a, b);
    OthersKept(a, b);
    hide SameBesides, TypeSignature, EnumSignature, Marked, RequiredNames, Additional, MayAdd, Properties, Frozen, Get;
    forall m | m in Properties(b) && m !in Properties(a) ensures MayAdd(a, b, m) { assert m == n; }
    forall m | m in Properties(a) ensures m in Properties(b) {}
  }

  lemma OthersKept(a: Keywords, b: Keywords)
    requires SameBesides(a, b)
    ensures forall k :: Frozen(k) ==> Get(a, k) == Get(b, k)
    ensures (KItems in a <==> KItems in b) && (KDefs in a <==> KDefs in b) && (KDefs in a ==> a[KDefs] == b[KDefs])
  {
    assert !Frozen(KProperties);
  }

  /** Nothing but the properties changes, and these gain the one. */
  lemma AddingOnly(d: Document, n: string, schema: Schema)
    requires d.root.Node? && ShapeOk(d.root)
    ensures var a, b := d.root.kw, Adding(d, n, schema).root.kw; SameBesides(a, b) && Properties(b) == Properties(a)[n := schema]
  {}

  lemma SignaturesKept(a: Keywords, b: Keywords)
    requires SameBesides(a, b)
    ensures TypeSignature(a) == TypeSignature(b) && EnumSignature(a) == EnumSignature(b) && Marked(a) == Marked(b)
    ensures RequiredNames(a) == RequiredNames(b) && Additional(a) == Additional(b)
  {
    assert KClosedUnion in a <==> KClosedUnion in b;
  }

  lemma SelfPairsBisimulate(d: Document, n: string, schema: Schema)
    requires d.root.Node? && ShapeOk(d.root) && n !in Properties(d.root.kw) && RefsResolve(d)
    requires Agree(d.root.kw, Adding(d, n, schema).root.kw)
    ensures Bisimulation(d, Adding(d, n, schema), SelfPairs(d, Adding(d, n, schema)))
  {
    hide LocalFaults, Agree, Related, Target, SelfPairs;
    var d' := Adding(d, n, schema);
    var r := SelfPairs(d, d');
    forall x: Schema, y: Schema | (x, y) in r
      ensures x.Node? && y.Node? && IsNodeOf(d, x) && IsNodeOf(d', y)
        && LocalFaults(x.kw, y.kw) == {} && StepsRelated(r, x, y) && RefsRelated(d, d', r, x, y)
    {
      SelfPairIs(d, d', x, y);
      if at: Location :| at != [] && NodeAt(d.root, at) == Some(x) && x == y && x.Node? {
        BelowBisimulates(d, n, schema, at);
      } else {
        RootBisimulates(d, n, schema);
      }
    }
  }

  lemma SelfPairIs(d: Document, d': Document, x: Schema, y: Schema)
    requires (x, y) in SelfPairs(d, d')
    ensures (x == d.root && y == d'.root) || exists at: Location :: at != [] && NodeAt(d.root, at) == Some(x) && x == y && x.Node?
  {
    if (x, y) != (d.root, d'.root) {
      var at :| at in Locations(d.root) && at != [] && NodeAt(d.root, at).Some? && NodeAt(d.root, at).value.Node?
        && (x, y) == (NodeAt(d.root, at).value, NodeAt(d.root, at).value);
      assert x == NodeAt(d.root, at).value && y == NodeAt(d.root, at).value;
      assert at != [] && NodeAt(d.root, at) == Some(x) && x == y && x.Node?;
    }
  }

  lemma BelowBisimulates(d: Document, n: string, schema: Schema, at: Location)
    requires d.root.Node? && ShapeOk(d.root) && n !in Properties(d.root.kw) && RefsResolve(d)
    requires at != [] && NodeAt(d.root, at).Some? && NodeAt(d.root, at).value.Node?
    ensures var d', x := Adding(d, n, schema), NodeAt(d.root, at).value;
      && IsNodeOf(d, x) && IsNodeOf(d', x) && LocalFaults(x.kw, x.kw) == {}
      && StepsRelated(SelfPairs(d, d'), x, x) && RefsRelated(d, d', SelfPairs(d, d'), x, x)
  {
    hide LocalFaults, Related, SelfPairs, Adding;
    var d', x := Adding(d, n, schema), NodeAt(d.root, at).value;
    AddingKeepsPlaces(d, n, schema, at);
    SelfAgrees(x.kw);
    FaultFreeIff(x.kw, x.kw);
    forall step | ChildAt(x, step).Some? ensures Related(SelfPairs(d, d'), ChildAt(x, step).value, ChildAt(x, step).value) {
      NodeAtStep(d.root, at, step);
      RelatedBelow(d, d', at + [step]);
    }
    if KRef in x.kw {
      TargetsRelate(d, n, schema, at);
    }
  }

  /** A reference leads to the same place on both sides. */
  lemma TargetsRelate(d: Document, n: string, schema: Schema, at: Location)
    requires d.root.Node? && ShapeOk(d.root) && n !in Properties(d.root.kw) && RefsResolve(d)
    requires NodeAt(d.root, at).Some? && NodeAt(d.root, at).value.Node? && KRef in NodeAt(d.root, at).value.kw
    ensures var d', ref := Adding(d, n, schema), Get(NodeAt(d.root, at).value.kw, KRef);
      && Target(d, ref).Some? && Target(d', ref).Some?
      && Related(SelfPairs(d, d'), Target(d, ref).value, Target(d', ref).value)
  {
    hide SelfPairs;
    var d', ref := Adding(d, n, schema), Get(NodeAt(d.root, at).value.kw, KRef);
    var to := Resolve(d, ref).value;
    if to == [] {
      SelfPairsRoot(d, d');
    } else {
      AddingKeepsPlaces(d, n, schema, to);
      RelatedBelow(d, d', to);
    }
  }

  lemma RootBisimulates(d: Document, n: string, schema: Schema)
    requires d.root.Node? && ShapeOk(d.root) && n !in Properties(d.root.kw) && RefsResolve(d)
    requires Agree(d.root.kw, Adding(d, n, schema).root.kw)
    ensures var d', x, y := Adding(d, n, schema), d.root, Adding(d, n, schema).root;
      && IsNodeOf(d, x) && IsNodeOf(d', y) && LocalFaults(x.kw, y.kw) == {}
      && StepsRelated(SelfPairs(d, d'), x, y) && RefsRelated(d, d', SelfPairs(d, d'), x, y)
  {
    hide LocalFaults, Related, SelfPairs, Agree;
    var d' := Adding(d, n, schema);
    var x, y := d.root, d'.root;
    assert NodeAt(d.root, []) == Some(x) && NodeAt(d'.root, []) == Some(y);
    FaultFreeIff(x.kw, y.kw);
    forall step | ChildAt(x, step).Some? && ChildAt(y, step).Some?
      ensures Related(SelfPairs(d, d'), ChildAt(x, step).value, ChildAt(y, step).value)
    {
      AddingKeeps(d, n, schema, step);
      NodeAtStep(d.root, [], step);
      assert [] + [step] == [step];
      RelatedBelow(d, d', [step]);
    }
    if KRef in x.kw {
      assert Get(y.kw, KRef) == Get(x.kw, KRef);
      TargetsRelate(d, n, schema, []);
    }
  }

  // ----- what an addition does not promise -----

  function Closed(): Schema {
    Node(map[KAdditional := One(Flag(false))])
  }

  /** `{"$ref": "#/$defs/Closed", "$defs": {"Closed": {"additionalProperties": false}}}` */
  function Guarded(): Document {
    Document(
      Node(map[KRef := Data(Str("#/$defs/Closed")), KDefs := Named(map["Closed" := Closed()])]),
      map["#/$defs/Closed" := [Entry(KDefs, "Closed")]])
  }

  lemma GuardedTarget()
    ensures Resolve(Guarded(), Get(Guarded().root.kw, KRef)) == Some([Entry(KDefs, "Closed")])
    ensures Target(Guarded(), Get(Guarded().root.kw, KRef)) == Some(Closed())
  {
    var at := [Entry(KDefs, "Closed")];
    assert SubAt(Guarded().root, at[0]) == Some(Closed()) && at[1..] == [];
  }

  lemma NoReferenceInClosed(at: Location)
    requires NodeAt(Closed(), at).Some?
    ensures NodeAt(Closed(), at).value.Node? ==> KRef !in NodeAt(Closed(), at).value.kw
  {
    if at != [] {
      var c := SubAt(Closed(), at[0]).value;
      assert Closed().kw == map[KAdditional := One(Flag(false))];
      assert c == Flag(false);
      assert NodeAt(c, at[1..]).Some? ==> at[1..] == [];
    }
  }

  /** The only reference of the document is at its root. */
  lemma GuardedResolves()
    ensures RefsResolve(Guarded())
  {
    hide Resolve, Closed;
    GuardedTarget();
    var d := Guarded();
    forall at | NodeAt(d.root, at).Some? && NodeAt(d.root, at).value.Node? && KRef in NodeAt(d.root, at).value.kw
      ensures at == []
    {
      if at != [] {
        assert SubAt(d.root, at[0]) == Some(Closed());
        NoReferenceInClosed(at[1..]);
      }
    }
  }

  lemma ClosedRejects(d: Document, n: string, v: Vocabulary, fuel: nat, bottom: bool, value: Json)
    ensures Accepts(d, v, fuel, bottom, Closed(), Obj(map[]))
    ensures !Accepts(d, v, fuel, bottom, Closed(), Obj(map[n := value]))
  {
    var s, inst := Closed(), Obj(map[n := value]);
    assert s.kw[KAdditional] == One(Flag(false)) && n in inst.members && IsAdditional(v, s.kw, n);
    assert !Accepts(d, v, fuel, bottom, Flag(false), inst.members[n]);
    assert !HoldsOne(d, v, fuel, bottom, s, KAdditional, Flag(false), inst);
    assert !Holds(d, v, fuel, bottom, s, KAdditional, inst);
  }

  /** The root's verdict is that of the closed object. */
  lemma GuardedVerdict(v: Vocabulary, fuel: nat, bottom: bool, inst: Json)
    requires fuel > 0
    ensures Accepts(Guarded(), v, fuel, bottom, Guarded().root, inst) == Accepts(Guarded(), v, fuel - 1, bottom, Closed(), inst)
  {
    var d := Guarded();
    GuardedTarget();
    assert Holds(d, v, fuel, bottom, d.root, KRef, inst) == Accepts(d, v, fuel - 1, bottom, Closed(), inst);
    assert Holds(d, v, fuel, bottom, d.root, KDefs, inst);
  }

  lemma GuardedTakesAny(n: string, schema: Schema)
    ensures Compatible(Guarded(), Adding(Guarded(), n, schema))
  {
    hide RefsResolve, Compatible, Adding, Closed;
    GuardedResolves();
    var kw := Guarded().root.kw;
    assert kw.Keys == {KRef, KDefs};
    assert Properties(kw) == map[] && RequiredNames(kw) == {} && ShapeOk(Guarded().root);
    RootAdditionIff(Guarded(), n, schema);
  }

  /** Any property may be added beside a reference to a closed object, where every member of its name is rejected. */
  lemma ReferenceRejects(n: string, schema: Schema, v: Vocabulary, fuel: nat, bottom: bool, value: Json)
    requires fuel > 0
    ensures Compatible(Guarded(), Adding(Guarded(), n, schema))
    ensures Accepts(Guarded(), v, fuel, bottom, Guarded().root, Obj(map[]))
    ensures !Accepts(Guarded(), v, fuel, bottom, Guarded().root, Obj(map[n := value]))
  {
    hide *;
    GuardedTakesAny(n, schema);
    ClosedRejects(Guarded(), n, v, fuel - 1, bottom, value);
    GuardedVerdict(v, fuel, bottom, Obj(map[]));
    GuardedVerdict(v, fuel, bottom, Obj(map[n := value]));
  }
}
