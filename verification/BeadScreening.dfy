/** What the loader accepts, refuses and drops, spelled out event by event. */
module BeadScreening {
  import opened Wrappers
  import opened BeadLog
  import opened BeadStore
  import opened BeadReader
  import opened BeadReport

  /** What bd can be given for a column; `owner` only when it creates the bead. */
  predicate ColumnAccepted(l: Loader, name: string, v: Option<Value>, isNew: bool) {
    if name in {"title", "type"} then v.Some? && v.value.Text?
    else if name in {"priority", "estimated_minutes"} then v.Some? && v.value.Integer?
    else if name in {"due_at", "defer_until"} then v.Some? ==> v.value.Text? && l.isTimestamp(v.value.s)
    else if name in {"description", "design", "acceptance_criteria", "notes", "assignee", "external_ref", "spec_id"} then
      v.Some? ==> v.value.Text?
    else name == "owner" && isNew && (v.Some? ==> v.value.Text?)
  }

  /** Metadata of the bead is free but for the loader's own keys. */
  predicate FieldAccepted(l: Loader, n: FieldName, v: Option<Value>, isNew: bool) {
    match n
    case Meta(key) => key != "bdlg" && !("bdlg." <= key)
    case Column(name) => ColumnAccepted(l, name, v, isNew)
  }

  lemma FieldAcceptedIff(l: Loader, n: FieldName, v: Option<Value>, isNew: bool)
    ensures FieldAccepted(l, n, v, isNew) <==> !FieldProblem(l, n, v, isNew)
  {
    if n.Column? {
      WritableColumns(n.name);
    }
  }

  lemma WritableColumns(name: string)
    ensures name in WRITABLE <==>
      || name in {"title", "type"} || name in {"priority", "estimated_minutes"} || name in {"due_at", "defer_until"}
      || name in {"description", "design", "acceptance_criteria", "notes", "assignee", "external_ref", "spec_id"}
  {}

  /** What an accepted event can be. */
  predicate MayLoad(l: Loader, p: Posted) {
    && p.bead.group == l.group && !p.redacted
    && match p.event.change
       case Create(fields) => forall n :: n in fields ==> FieldAccepted(l, n, Some(fields[n]), p.bead.id !in l.rows)
       case SetField(n, v) => FieldAccepted(l, n, v, p.bead.id !in l.rows)
       case SetPhase(phase) => phase in l.statuses
       case EdgeAdd(_) => p.targetGroup == l.group
       case EdgeRemove(_) => p.targetGroup == l.group
       case Delete => l.deleteEnabled
       case Tombstone(_) => false
       case _ => true
  }

  /** An event is accepted exactly when it is of this hive and unredacted, speaks of columns and values bd takes, a
      status bd knows and a target in this hive, and is no disabled delete and no tombstone; each other one is
      refused for the first of these reasons that applies. */
  lemma RefusedIff(l: Loader, p: Posted)
    ensures Refusal(l, p).None? <==> MayLoad(l, p)
    ensures Refusal(l, p) == Some(ForeignGroup) <==> p.bead.group != l.group
    ensures p.bead.group == l.group ==> (Refusal(l, p) == Some(Code.Redacted) <==> p.redacted)
    ensures p.bead.group == l.group && !p.redacted && !MayLoad(l, p) ==>
      Refusal(l, p) == Some(
        match p.event.change
        case Delete => DeleteDisabled
        case Tombstone(_) => ErasureIncomplete
        case SetPhase(_) => UnknownStatus
        case EdgeAdd(_) => DanglingTarget
        case EdgeRemove(_) => DanglingTarget
        case _ => FieldUnsupported)
  {
    hide FieldProblem, FieldAccepted;
    var isNew := p.bead.id !in l.rows;
    match p.event.change
    case SetField(n, v) => FieldAcceptedIff(l, n, v, isNew);
    case Create(fields) =>
      forall n | n in fields ensures FieldAccepted(l, n, Some(fields[n]), isNew) <==> !FieldProblem(l, n, Some(fields[n]), isNew) {
        FieldAcceptedIff(l, n, Some(fields[n]), isNew);
      }
    case _ =>
  }

  // ----- whether a bead exists -----

  /** The last create or delete of a bead. */
  predicate LastOfExistence(es: set<Event>, e: Event) {
    && e in es && (e.change.Create? || e.change.Delete?)
    && forall x :: x in es && (x.change.Create? || x.change.Delete?) ==> Le(x.stamp, e.stamp)
  }

  /** Some event says whether the bead exists. */
  predicate SaysExistence(es: set<Event>) {
    exists e :: e in es && (e.change.Create? || e.change.Delete?)
  }

  /** A checkpoint all of whose bead's other events come after what it covers. */
  predicate CoversNone(es: set<Event>, c: Event) {
    && c in es && c.change.Checkpoint?
    && forall x :: x in es && Le(x.stamp, c.change.covers) ==> x.change.Checkpoint?
  }

  /** Of these the one that covers most and, of several that cover the same, the first. */
  predicate Furthest(es: set<Event>, c: Event) {
    && CoversNone(es, c)
    && forall d :: d in es && CoversNone(es, d) ==>
      (Le(d.change.covers, c.change.covers) && d.change.covers != c.change.covers)
      || (d.change.covers == c.change.covers && Le(c.stamp, d.stamp))
  }

  /** A bead exists exactly when its last create or delete is a create, and is deleted exactly when that is a delete.
      With neither, the furthest checkpoint that its other events come after says which. */
  lemma AliveIff(es: set<Event>)
    requires Identified(es)
    ensures SaysExistence(es) ==> (Alive(es) <==> exists c :: LastOfExistence(es, c) && c.change.Create?)
    ensures SaysExistence(es) ==> (Dead(es) <==> exists d :: LastOfExistence(es, d) && d.change.Delete?)
    ensures !SaysExistence(es) ==> (Alive(es) <==> exists c :: Furthest(es, c) && !c.change.gone)
    ensures !SaysExistence(es) ==> (Dead(es) <==> exists c :: Furthest(es, c) && c.change.gone)
  {
    hide Le, CanSeed, CoversNone;
    forall e ensures Decides(es, Exists, e) <==> LastOfExistence(es, e) {}
    if e :| Decides(es, Exists, e) {
      TouchedBy(es, Exists, e);
    }
    if e :| e in es && (e.change.Create? || e.change.Delete?) {
      TouchedBy(es, Exists, e);
    }
    forall c ensures Seeds(es, c) <==> Furthest(es, c) { SeedsIff(es, c); }
    forall c ensures Seeds(es, c) ==> c in es { CoversIff(es, c); }
  }

  lemma CoversIff(es: set<Event>, c: Event)
    ensures CanSeed(es, c) <==> CoversNone(es, c)
    ensures CanSeed(es, c) ==> c in es && c.change.Checkpoint?
  {}

  lemma SeedsIff(es: set<Event>, c: Event)
    ensures Seeds(es, c) <==> Furthest(es, c)
  {
    hide Le, CanSeed, CoversNone;
    forall d ensures (CanSeed(es, d) <==> CoversNone(es, d)) && (CanSeed(es, d) ==> d in es && d.change.Checkpoint?) { CoversIff(es, d); }
    LeReflexive(c.change);
  }

  lemma LeReflexive(c: Change)
    ensures c.Checkpoint? ==> Le(c.covers, c.covers)
  {
    if c.Checkpoint? {
      LeTotal(c.covers, c.covers);
    }
  }

  // ----- why an event is dropped -----

  /** What each loss code of an accepted event says, and what it is not to be dropped. */
  lemma LossMeans(l: Loader, batch: seq<Posted>, p: Posted)
    requires Refusal(l, p).None?
    ensures var code, mine := CodeOf(ClassOf(l, batch, p)), Accepted(l, batch, p.bead);
      var merged := Merged(l, p.bead, mine);
      var erased := exists q :: q in batch && q.bead == p.bead && q.event.change == Tombstone(true);
      var ignored := p.event.change.Checkpoint? && (p.bead.id in l.rows || exists q :: q in mine && q.event.change.Create?);
      && (code == Some(Erased) <==> erased)
      && (code == Some(Deleted) <==> !erased && !ignored && !Alive(merged) && Dead(merged))
      && (code == Some(MissingBead) <==> !erased && !ignored && !Alive(merged) && !Dead(merged))
      && (code == Some(Superseded) <==>
            !erased && !ignored && Alive(merged) && p.event !in Stock(l, p.bead) && !DecidesSome(merged, p.event))
      && (code == None <==>
            !erased && (ignored || (Alive(merged) && (p.event in Stock(l, p.bead) || DecidesSome(merged, p.event)))))
  {
    hide Refusal, Accepted, Merged, Alive, Dead, DecidesSome, Stock;
  }
}
