/** JSON Schema documents as the wire checker reads them: keywords, subschemas, and locations. */
module WireSchema {
  import opened Wrappers

  datatype Json =
    | Null
    | Boolean(b: bool)
    | Number(n: int)
    | Str(s: string)
    | Arr(items: seq<Json>)
    | Obj(members: map<string, Json>)

  /** The keyword names, grouped as the checker groups them. */
  datatype Key =
    | KSchema | KId | KRef | KDefs | KType | KConst | KEnum | KClosedUnion
    | KProperties | KRequired | KAdditional | KItems
    | KScalar(scalar: string)          // minimum ... maxProperties
    | KAllOf | KAnyOf | KOneOf | KPrefixItems
    | KNot | KIf | KThen | KElse | KContains | KPropertyNames
    | KUnevaluatedProperties | KUnevaluatedItems | KContentSchema
    | KDependentSchemas | KPatternProperties | KDefinitions
    | KAnnotation(annotation: string)  // $comment, title, ... writeOnly
    | KOther(other: string)

  datatype Keyword =
    | Data(json: Json)
    | One(schema: Schema)
    | Many(schemas: seq<Schema>)
    | Named(byName: map<string, Schema>)

  datatype Schema = Flag(b: bool) | Node(kw: map<Key, Keyword>)

  predicate IsArrayApplicator(k: Key) {
    k.KAllOf? || k.KAnyOf? || k.KOneOf? || k.KPrefixItems?
  }

  predicate IsValueApplicator(k: Key) {
    || k.KNot? || k.KIf? || k.KThen? || k.KElse? || k.KContains? || k.KPropertyNames?
    || k.KUnevaluatedProperties? || k.KUnevaluatedItems? || k.KContentSchema?
  }

  predicate IsMapApplicator(k: Key) {
    k.KDependentSchemas? || k.KPatternProperties? || k.KDefs? || k.KDefinitions?
  }

  /** Neither understood by the structured comparison nor an annotation: compared raw. */
  predicate Unimplemented(k: Key) {
    IsArrayApplicator(k) || IsValueApplicator(k) || (IsMapApplicator(k) && !k.KDefs?) || k.KOther?
  }

  function Get(kw: map<Key, Keyword>, k: Key): Option<Keyword> {
    if k in kw then Some(kw[k]) else None
  }

  // ----- subschemas and where they are -----

  datatype Step = Child(key: Key) | Element(key: Key, index: nat) | Entry(key: Key, name: string)

  type Location = seq<Step>

  /** The subschemas a comparison descends into. */
  predicate Traversed(step: Step) {
    match step
    case Child(k) => IsValueApplicator(k) || k.KAdditional? || k.KItems?
    case Element(k, _) => IsArrayApplicator(k)
    case Entry(k, _) => IsMapApplicator(k) || k.KProperties?
  }

  /** What lies one step down, under any keyword. */
  function SubAt(s: Schema, step: Step): (c: Option<Schema>)
    ensures c.Some? ==> c.value < s
  {
    if s.Flag? || step.key !in s.kw then None
    else
      match (step, s.kw[step.key])
      case (Child(_), One(c)) => Some(c)
      case (Element(_, i), Many(cs)) => if i < |cs| then Some(cs[i]) else None
      case (Entry(_, n), Named(m)) => if n in m then Some(m[n]) else None
      case _ => None
  }

  /** A subschema one step down that a comparison descends into. */
  function ChildAt(s: Schema, step: Step): (c: Option<Schema>)
    ensures c.Some? ==> c.value < s
  {
    if Traversed(step) then SubAt(s, step) else None
  }

  /** The value at a location; a reference may point at any, also below unknown keywords. */
  function NodeAt(s: Schema, at: Location): Option<Schema> {
    if at == [] then Some(s)
    else
      var c := SubAt(s, at[0]);
      if c.None? then None else NodeAt(c.value, at[1..])
  }

  lemma {:induction false} NodeAtStep(s: Schema, at: Location, step: Step)
    requires NodeAt(s, at).Some?
    ensures NodeAt(s, at + [step]) == SubAt(NodeAt(s, at).value, step)
    decreases at
  {
    if at == [] {
      assert (at + [step])[1..] == [];
    } else {
      assert (at + [step])[1..] == at[1..] + [step];
      NodeAtStep(SubAt(s, at[0]).value, at[1..], step);
    }
  }

  /** Every location of a schema: a finite set, because a document is a finite tree. */
  ghost function Locations(s: Schema): set<Location> {
    match s
    case Flag(_) => {[]}
    case Node(kw) =>
      {[]}
      + (set k, l | k in kw && kw[k].One? && l in Locations(kw[k].schema) :: [Child(k)] + l)
      + (set k, i: nat, l | k in kw && kw[k].Many? && 0 <= i < |kw[k].schemas| && l in Locations(kw[k].schemas[i]) :: [Element(k, i)] + l)
      + (set k, n, l | k in kw && kw[k].Named? && n in kw[k].byName && l in Locations(kw[k].byName[n]) :: [Entry(k, n)] + l)
  }

  lemma {:induction false} LocationsComplete(s: Schema, at: Location)
    requires NodeAt(s, at).Some?
    ensures at in Locations(s)
    decreases at
  {
    if at != [] {
      LocationsComplete(SubAt(s, at[0]).value, at[1..]);
      assert at == [at[0]] + at[1..];
    }
  }

  /** A schema with the location each local `$ref` string resolves to; other refs raise. */
  datatype Document = Document(root: Schema, refs: map<string, Location>)

  function Resolve(d: Document, ref: Option<Keyword>): Option<Location> {
    match ref
    case Some(Data(Str(r))) =>
      if r in d.refs && NodeAt(d.root, d.refs[r]).Some? then Some(d.refs[r]) else None
    case _ => None
  }

  function Target(d: Document, ref: Option<Keyword>): (t: Option<Schema>)
    ensures t.Some? <==> Resolve(d, ref).Some?
  {
    var at := Resolve(d, ref);
    if at.None? then None else NodeAt(d.root, at.value)
  }

  ghost predicate IsNodeOf(d: Document, s: Schema) {
    exists at :: NodeAt(d.root, at) == Some(s)
  }

  /** The metaschema's demands: `type` names one type or lists several, `enum` is a list, and the
      object and array applicators hold schemas. */
  predicate ShapeOk(s: Schema) {
    s.Node? ==>
      && (KType in s.kw ==> s.kw[KType].Data? && (s.kw[KType].json.Str? || s.kw[KType].json.Arr?))
      && (KEnum in s.kw ==> s.kw[KEnum].Data? && s.kw[KEnum].json.Arr?)
      && (KProperties in s.kw ==> s.kw[KProperties].Named?)
      && (KAdditional in s.kw ==> s.kw[KAdditional].One?)
      && (KItems in s.kw ==> s.kw[KItems].One?)
  }
}
