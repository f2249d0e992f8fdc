/** One bead in the bd store: the folded state, the writes that lead from one state to another, and
    the port that carries them out. */
module BeadStore {
  import opened Wrappers
  import opened BeadLog

  const CLOSED := "closed"
  const RETIRED := "retired"

  /** Columns `bd update` has a flag for. `owner` is honoured at import only. */
  const WRITABLE := {
    "title", "description", "design", "acceptance_criteria", "notes", "priority", "assignee",
    "external_ref", "due_at", "defer_until", "estimated_minutes", "spec_id", "type"}
  const UNCLEARABLE := {"title", "priority", "estimated_minutes", "type"}
  const INTEGERS := {"priority", "estimated_minutes"}

  /** The folded state of an existing bead. */
  datatype BeadState = BeadState(
    fields: map<FieldName, Value>,
    labels: set<string>,
    edges: set<Edge>,
    phase: string
  )

  function StatusOf(phase: string): string {
    if phase == RETIRED then CLOSED else phase
  }

  function PhaseIn(c: Change): string {
    match c
    case SetPhase(p) => p
    case Retire(_) => RETIRED
    case _ => "open"
  }

  function FieldIn(c: Change, n: FieldName): Option<Value> {
    match c
    case SetField(_, v) => v
    case Create(fields) => if n in fields then Some(fields[n]) else None
    case _ => None
  }

  /** The state the deciding events spell out; null fields are left out. */
  function StateAt(d: map<Facet, Event>): BeadState {
    BeadState(
      map f | f in d && f.Field? && FieldIn(d[f].change, f.at).Some? :: f.at := FieldIn(d[f].change, f.at).value,
      set f | f in d && f.Label? && d[f].change.LabelAdd? :: f.tag,
      set f | f in d && f.EdgeTo? && d[f].change.EdgeAdd? :: f.edge,
      if Phase in d then PhaseIn(d[Phase].change) else "open"
    )
  }

  // ----- what bd holds -----

  /** The bd row's current values. */
  datatype View = View(fields: map<FieldName, Value>, labels: set<string>, edges: set<Edge>, status: string)

  function ViewOf(s: BeadState): View {
    View(s.fields, s.labels, s.edges, StatusOf(s.phase))
  }

  datatype Plan = Plan(
    columns: map<string, Option<Value>>,  // None is the empty flag value
    meta: map<string, Value>,
    unset: set<string>,
    addLabels: set<string>,
    removeLabels: set<string>,
    status: Option<string>,
    close: bool,
    addEdges: set<Edge>,
    removeEdges: set<Edge>
  )

  function Look(m: map<FieldName, Value>, n: FieldName): Option<Value> {
    if n in m then Some(m[n]) else None
  }

  predicate Changed(was: map<FieldName, Value>, now: map<FieldName, Value>, n: FieldName) {
    Look(was, n) != Look(now, n)
  }

  predicate CanWrite(name: string, v: Option<Value>) {
    name in WRITABLE && (v.None? ==> name !in UNCLEARABLE) && (name == "type" ==> v != Some(Text("")))
  }

  /** The writes from one state to another. Removing a dependency drops every type between the
      pair, so the ones that must stay are added again. */
  function Diff(was: BeadState, now: BeadState): Plan {
    var added := now.edges - was.edges;
    var removed := was.edges - now.edges;
    var restore := set e | e in now.edges && e !in added && exists gone :: gone in removed && gone.target == e.target;
    var want, have := StatusOf(now.phase), StatusOf(was.phase);
    Plan(
      map n | n in was.fields.Keys + now.fields.Keys && n.Column? && Changed(was.fields, now.fields, n)
              && CanWrite(n.name, Look(now.fields, n)) :: n.name := Look(now.fields, n),
      map n | n in now.fields && n.Meta? && Changed(was.fields, now.fields, n) :: n.name := now.fields[n],
      set n | n in was.fields && n.Meta? && n !in now.fields :: n.name,
      now.labels - was.labels,
      was.labels - now.labels,
      if want != have && want != CLOSED then Some(want) else None,
      want != have && want == CLOSED,
      added + restore,
      removed
    )
  }

  predicate IsEmpty(p: Plan) {
    && p.columns == map[] && p.meta == map[] && p.unset == {} && p.addLabels == {} && p.removeLabels == {}
    && p.status.None? && !p.close && p.addEdges == {} && p.removeEdges == {}
  }

  // ----- the port -----

  /** bd keeps no empty text in a column: writing one clears it. */
  function Kept(v: Option<Value>): Option<Value> {
    if v == Some(Text("")) then None else v
  }

  function WithColumns(fields: map<FieldName, Value>, columns: map<string, Option<Value>>): map<FieldName, Value> {
    map n | n in fields.Keys + (set c | c in columns :: Column(c)) &&
      (n.Column? && n.name in columns ==> Kept(columns[n.name]).Some?) ::
      if n.Column? && n.name in columns then Kept(columns[n.name]).value else fields[n]
  }

  function WithMeta(fields: map<FieldName, Value>, meta: map<string, Value>): map<FieldName, Value> {
    fields + (map k | k in meta :: Meta(k) := meta[k])
  }

  function WithoutMeta(fields: map<FieldName, Value>, keys: set<string>): map<FieldName, Value> {
    map n | n in fields && !(n.Meta? && n.name in keys) :: fields[n]
  }

  /** Drop every dependency on one bead, whatever its type. */
  function Sever(edges: set<Edge>, target: string): set<Edge> {
    set e | e in edges && e.target != target
  }

  class BdPort {
    var fields: map<FieldName, Value>
    var labels: set<string>
    var edges: set<Edge>
    var status: string

    constructor (v: View)
      ensures Current() == v
    {
      fields, labels, edges, status := v.fields, v.labels, v.edges, v.status;
    }

    ghost function Current(): View
      reads this
    {
      View(fields, labels, edges, status)
    }

    /** One `bd update`. */
    method ApplyChanges(columns: map<string, Option<Value>>, meta: map<string, Value>, add: set<string>, remove: set<string>, to: Option<string>)
      modifies `fields, `labels, `status
      ensures fields == WithMeta(WithColumns(old(fields), columns), meta)
      ensures labels == old(labels) - remove + add
      ensures status == if to.Some? then to.value else old(status)
    {
      fields := WithMeta(WithColumns(fields, columns), meta);
      labels := labels - remove + add;
      if to.Some? {
        status := to.value;
      }
    }

    method UnsetMetadata(keys: set<string>)
      modifies `fields
      ensures fields == WithoutMeta(old(fields), keys)
    {
      fields := WithoutMeta(fields, keys);
    }

    method Close()
      modifies `status
      ensures status == CLOSED
    {
      status := CLOSED;
    }

    method AddDependency(e: Edge)
      modifies `edges
      ensures edges == old(edges) + {e}
    {
      edges := edges + {e};
    }

    method RemoveDependency(target: string)
      modifies `edges
      ensures edges == Sever(old(edges), target)
    {
      edges := Sever(edges, target);
    }
  }

  /** What executing a plan makes of a row. */
  function Executed(v: View, p: Plan): View {
    View(
      WithoutMeta(WithMeta(WithColumns(v.fields, p.columns), p.meta), p.unset),
      v.labels - p.removeLabels + p.addLabels,
      Severed(v.edges, p.removeEdges) + p.addEdges,
      if p.close then CLOSED else if p.status.Some? then p.status.value else v.status
    )
  }

  function Severed(edges: set<Edge>, gone: set<Edge>): set<Edge> {
    set e | e in edges && forall g :: g in gone ==> g.target != e.target
  }

  /** Carry a plan out, one port call at a time. */
  method Write(port: BdPort, p: Plan)
    requires p.close ==> p.status.None?
    modifies port
    ensures port.Current() == Executed(old(port.Current()), p)
  {
    hide WithColumns, WithMeta, WithoutMeta, Severed;
    WriteFields(port, p);
    WriteEdges(port, p);
  }

  method WriteFields(port: BdPort, p: Plan)
    requires p.close ==> p.status.None?
    modifies port`fields, port`labels, port`status
    ensures port.fields == WithoutMeta(WithMeta(WithColumns(old(port.fields), p.columns), p.meta), p.unset)
    ensures port.labels == old(port.labels) - p.removeLabels + p.addLabels
    ensures port.status == if p.close then CLOSED else if p.status.Some? then p.status.value else old(port.status)
  {
    hide WithColumns, WithMeta, WithoutMeta;
    NothingToWrite(port.fields, p);
    if p.columns != map[] || p.addLabels != {} || p.removeLabels != {} || p.status.Some? || p.meta != map[] {
      port.ApplyChanges(p.columns, p.meta, p.addLabels, p.removeLabels, p.status);
    }
    NothingToUnset(port.fields, p);
    if p.unset != {} {
      port.UnsetMetadata(p.unset);
    }
    if p.close {
      port.Close();
    }
  }

  lemma NothingToWrite(fields: map<FieldName, Value>, p: Plan)
    ensures p.columns == map[] && p.meta == map[] ==> WithMeta(WithColumns(fields, p.columns), p.meta) == fields
  {}

  lemma NothingToUnset(fields: map<FieldName, Value>, p: Plan)
    ensures p.unset == {} ==> WithoutMeta(fields, p.unset) == fields
  {}

  method WriteEdges(port: BdPort, p: Plan)
    modifies port`edges
    ensures port.edges == Severed(old(port.edges), p.removeEdges) + p.addEdges
  {
    var left := p.removeEdges;
    while left != {}
      invariant left <= p.removeEdges
      invariant port.edges == Severed(old(port.edges), p.removeEdges - left)
      decreases left
    {
      var e :| e in left;
      port.RemoveDependency(e.target);
      left := left - {e};
    }
    ghost var cut := port.edges;
    assert p.removeEdges - left == p.removeEdges;
    left := p.addEdges;
    while left != {}
      invariant left <= p.addEdges
      invariant port.edges == cut + (p.addEdges - left)
      decreases left
    {
      var e :| e in left;
      port.AddDependency(e);
      left := left - {e};
    }
  }

  // ----- what the plan achieves -----

  /** Edges: despite the coarse removal, exactly the wanted ones remain. */
  lemma EdgesReached(was: BeadState, now: BeadState)
    ensures Executed(ViewOf(was), Diff(was, now)).edges == now.edges
  {
    var p := Diff(was, now);
    var cut := Severed(was.edges, p.removeEdges);
    forall e | e in now.edges ensures e in cut + p.addEdges {
      if e in was.edges && e !in cut {
        var gone :| gone in p.removeEdges && gone.target == e.target;
        assert e in p.addEdges;
      }
    }
    forall e | e in cut + p.addEdges ensures e in now.edges {
      assert e in was.edges && e !in now.edges ==> e in p.removeEdges;
    }
    assert cut + p.addEdges == now.edges;
  }

  lemma LabelsAndStatusReached(was: BeadState, now: BeadState)
    ensures Executed(ViewOf(was), Diff(was, now)).labels == now.labels
    ensures Executed(ViewOf(was), Diff(was, now)).status == StatusOf(now.phase)
  {}

  /** A field ends as the target has it, unless it is a column bd cannot write or would clear. */
  lemma FieldReached(was: BeadState, now: BeadState, n: FieldName)
    ensures Look(Executed(ViewOf(was), Diff(was, now)).fields, n) ==
      if n.Meta? || !Changed(was.fields, now.fields, n) then Look(now.fields, n)
      else if CanWrite(n.name, Look(now.fields, n)) then Kept(Look(now.fields, n))
      else Look(was.fields, n)
  {
    hide Diff, CanWrite, Changed;
    var p := Diff(was, now);
    if n.Column? {
      ColumnReached(was, now, n.name);
      ColumnAside(WithColumns(was.fields, p.columns), p, n.name);
    } else {
      MetaReached(was, now, n.name);
    }
  }

  lemma ColumnAside(fields: map<FieldName, Value>, p: Plan, c: string)
    ensures Look(WithoutMeta(WithMeta(fields, p.meta), p.unset), Column(c)) == Look(fields, Column(c))
  {}

  lemma MetaPlanned(was: BeadState, now: BeadState, k: string)
    ensures var p, n := Diff(was, now), Meta(k);
      && (k in p.meta <==> n in now.fields && Changed(was.fields, now.fields, n))
      && (k in p.meta ==> p.meta[k] == now.fields[n])
      && (k in p.unset <==> n in was.fields && n !in now.fields)
  {
    hide CanWrite;
  }

  lemma MetaAside(fields: map<FieldName, Value>, columns: map<string, Option<Value>>, k: string)
    ensures Look(WithColumns(fields, columns), Meta(k)) == Look(fields, Meta(k))
  {
    hide Kept;
  }

  lemma MetaWritten(fields: map<FieldName, Value>, meta: map<string, Value>, unset: set<string>, k: string)
    ensures Look(WithoutMeta(WithMeta(fields, meta), unset), Meta(k)) ==
      if k in unset then None else if k in meta then Some(meta[k]) else Look(fields, Meta(k))
  {}

  lemma MetaReached(was: BeadState, now: BeadState, k: string)
    ensures Look(Executed(ViewOf(was), Diff(was, now)).fields, Meta(k)) == Look(now.fields, Meta(k))
  {
    hide Diff, WithColumns, WithMeta, WithoutMeta;
    var p := Diff(was, now);
    MetaPlanned(was, now, k);
    MetaAside(was.fields, p.columns, k);
    MetaWritten(WithColumns(was.fields, p.columns), p.meta, p.unset, k);
  }

  lemma ColumnReached(was: BeadState, now: BeadState, c: string)
    ensures var n := Column(c);
      Look(WithColumns(was.fields, Diff(was, now).columns), n) ==
      if !Changed(was.fields, now.fields, n) then Look(now.fields, n)
      else if CanWrite(c, Look(now.fields, n)) then Kept(Look(now.fields, n))
      else Look(was.fields, n)
  {
    hide CanWrite;
    var n := Column(c);
    var p := Diff(was, now);
    assert c in p.columns <==> Changed(was.fields, now.fields, n) && CanWrite(c, Look(now.fields, n));
    if c in p.columns {
      assert p.columns[c] == Look(now.fields, n);
    }
  }

  /** bd can hold the target's value of this column, coming from `was`. */
  predicate Attainable(was: BeadState, now: BeadState, c: string) {
    Changed(was.fields, now.fields, Column(c)) ==>
      CanWrite(c, Look(now.fields, Column(c))) && Look(now.fields, Column(c)) != Some(Text(""))
  }

  /** The plan turns the row into exactly the target if and only if every changed column is one bd
      can write and none is set to the empty text. */
  lemma PlanReachesTarget(was: BeadState, now: BeadState)
    ensures Executed(ViewOf(was), Diff(was, now)) == ViewOf(now) <==> forall c :: Attainable(was, now, c)
  {
    hide Diff, CanWrite, Executed;
    var got := Executed(ViewOf(was), Diff(was, now));
    EdgesReached(was, now);
    LabelsAndStatusReached(was, now);
    forall n: FieldName ensures Look(got.fields, n) == Look(now.fields, n) <==> (n.Meta? || Attainable(was, now, n.name)) {
      FieldReached(was, now, n);
    }
    if forall c :: Attainable(was, now, c) {
      forall n: FieldName ensures Look(got.fields, n) == Look(now.fields, n) {
        assert n.Column? ==> Attainable(was, now, n.name);
      }
      SameFields(got.fields, now.fields);
    }
    if got == ViewOf(now) {
      forall c ensures Attainable(was, now, c) {
        assert Look(got.fields, Column(c)) == Look(now.fields, Column(c));
      }
    }
  }

  lemma SameFields(a: map<FieldName, Value>, b: map<FieldName, Value>)
    requires forall n :: Look(a, n) == Look(b, n)
    ensures a == b
  {
    forall n ensures n in a <==> n in b {
      assert Look(a, n) == Look(b, n);
    }
    forall n | n in a ensures a[n] == b[n] {
      assert Look(a, n) == Look(b, n);
    }
  }

  /** The target sets a column to the empty text; an empty type is never written. */
  predicate Blanks(now: BeadState, c: string) {
    c in WRITABLE && c != "type" && Look(now.fields, Column(c)) == Some(Text(""))
  }

  /** After the writes, comparing what bd shows with the same target again plans nothing more if and
      only if the target sets no writable column to the empty text: bd clears such a column, so the
      write would be repeated by every later load. */
  lemma EmptyTextNeverSettles(was: BeadState, now: BeadState, shown: BeadState)
    requires forall c :: Look(was.fields, Column(c)) != Some(Text(""))
    requires ViewOf(shown) == Executed(ViewOf(was), Diff(was, now))
    ensures IsEmpty(Diff(shown, now)) <==> forall c :: !Blanks(now, c)
  {
    hide Executed, Diff, CanWrite;
    EdgesReached(was, now);
    LabelsAndStatusReached(was, now);
    forall n: FieldName ensures n.Column? || Look(shown.fields, n) == Look(now.fields, n) {
      FieldReached(was, now, n);
    }
    forall c ensures Column(c) in Planned(shown, now) <==> Blanks(now, c) {
      FieldReached(was, now, Column(c));
      ReplanColumn(was, now, shown, c);
    }
    PlannedEmpty(shown, now);
    if IsEmpty(Diff(shown, now)) {
      forall c ensures !Blanks(now, c) {
        assert Column(c) !in Planned(shown, now);
      }
    }
  }

  /** The columns a diff would write. */
  ghost function Planned(was: BeadState, now: BeadState): set<FieldName> {
    set n | n in was.fields.Keys + now.fields.Keys && n.Column? && Changed(was.fields, now.fields, n) && CanWrite(n.name, Look(now.fields, n))
  }

  lemma ReplanColumn(was: BeadState, now: BeadState, shown: BeadState, c: string)
    requires Look(was.fields, Column(c)) != Some(Text(""))
    requires Look(shown.fields, Column(c)) ==
      if !Changed(was.fields, now.fields, Column(c)) then Look(now.fields, Column(c))
      else if CanWrite(c, Look(now.fields, Column(c))) then Kept(Look(now.fields, Column(c)))
      else Look(was.fields, Column(c))
    ensures Column(c) in Planned(shown, now) <==> Blanks(now, c)
  {}

  lemma PlannedEmpty(was: BeadState, now: BeadState)
    requires was.labels == now.labels && was.edges == now.edges && StatusOf(was.phase) == StatusOf(now.phase)
    requires forall n: FieldName :: n.Column? || Look(was.fields, n) == Look(now.fields, n)
    ensures IsEmpty(Diff(was, now)) <==> Planned(was, now) == {}
  {
    hide CanWrite;
    var p := Diff(was, now);
    assert p.meta == map[] && p.unset == {};
    assert p.addEdges == {} && p.removeEdges == {};
    forall n | n in Planned(was, now) ensures n.name in p.columns {}
    forall c | c in p.columns ensures Column(c) in Planned(was, now) {}
  }
}
