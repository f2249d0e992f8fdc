/** What a load does to a row, in bd's own terms: the status, the labels, the dependencies and the
    fields it ends with, by the last event that speaks of each. */
module BeadOutcome {
  import opened Wrappers
  import opened Text
  import opened BeadLog
  import opened BeadStore
  import opened BeadReader
  import opened BeadLoader

  // ----- the last event -----

  predicate OfPhase(c: Change) {
    c.SetPhase? || c.Retire? || c.Create?
  }

  predicate OfLabel(c: Change, tag: string) {
    c == LabelAdd(tag) || c == LabelRemove(tag)
  }

  predicate OfEdge(c: Change, edge: Edge) {
    c == EdgeAdd(edge) || c == EdgeRemove(edge)
  }

  predicate OfField(c: Change, n: FieldName) {
    (c.SetField? && c.at == n) || (c.Create? && n in c.fields)
  }

  /** The event comes after every event among these that speaks of the same. */
  ghost predicate LastOf(es: set<Event>, speaks: Change -> bool, e: Event) {
    && e in es && speaks(e.change)
    && forall x :: x in es && speaks(x.change) ==> Le(x.stamp, e.stamp)
  }

  /** Every event of the batch that speaks of this comes before, or is, one that the row already gave back. */
  ghost predicate NothingNew(m: Minter, row: Row, batch: set<Event>, speaks: Change -> bool) {
    forall e :: e in batch && speaks(e.change) ==>
      exists y :: y in Events(m, row) && speaks(y.change) && Le(e.stamp, y.stamp)
  }

  lemma SpeaksIsTouches(c: Change, f: Facet)
    ensures f.Phase? ==> (Touches(c, f) <==> OfPhase(c))
    ensures f.Label? ==> (Touches(c, f) <==> OfLabel(c, f.tag))
    ensures f.EdgeTo? ==> (Touches(c, f) <==> OfEdge(c, f.edge))
    ensures f.Field? ==> (Touches(c, f) <==> OfField(c, f.at))
  {}

  /** The last event of a facet, when it is new, takes it. */
  lemma LastTakes(m: Minter, row: Row, batch: set<Event>, speaks: Change -> bool, f: Facet, e: Event)
    requires WellFormed(row) && Loadable(m, row, batch)
    requires forall c :: Touches(c, f) <==> speaks(c)
    requires e in batch && e !in Events(m, row) && LastOf(Events(m, row) + batch, speaks, e)
    ensures Taken(m, row, batch, f) && DeciderOf(batch, f) == e
  {
    hide Le, WellFormed, Loadable, Touches, ReadAt, Events;
    LoadableIdentified(m, row, batch);
    TouchedBy(batch, f, e);
    DeciderUnique(Events(m, row) + batch, f, e, e);
    assert Decides(batch, f, e);
    var d := DeciderOf(batch, f);
    assert Identified(batch);
    DeciderUnique(batch, f, e, d);
    BaseDecides(m, row);
    InBase(m, row, f);
    DecidersAt(Events(m, row), Base(m, row), f);
    if ReadAt(m, row, f).Some? && Le(e.stamp, ReadAt(m, row, f).value.stamp) {
      LeAntisymmetric(e.stamp, ReadAt(m, row, f).value.stamp);
    }
  }

  lemma NothingTakes(m: Minter, row: Row, batch: set<Event>, speaks: Change -> bool, f: Facet)
    requires WellFormed(row) && Loadable(m, row, batch)
    requires forall c :: Touches(c, f) <==> speaks(c)
    requires NothingNew(m, row, batch, speaks)
    ensures !Taken(m, row, batch, f)
  {
    hide Le, WellFormed, Loadable, Touches, ReadAt, Events;
    if Touched(batch, f) {
      var e := DeciderOf(batch, f);
      var y :| y in Events(m, row) && speaks(y.change) && Le(e.stamp, y.stamp);
      BaseDecides(m, row);
      InBase(m, row, f);
      TouchedBy(Events(m, row), f, y);
      DecidersAt(Events(m, row), Base(m, row), f);
      DeciderBeats(Events(m, row), f, Base(m, row)[f], y);
      LeTransitive(e.stamp, y.stamp, Base(m, row)[f].stamp);
    }
  }

  // ----- what a load does -----

  /** A load whose last word on the phase is a retirement closes the bead; one whose last word sets a phase leaves it
      there; otherwise the status stays. */
  lemma StatusAfterLoad(m: Minter, row: Row, batch: set<Event>, now: real, e: Event)
    requires WellFormed(row) && Loadable(m, row, batch) && ModeOf(m, row) != Unread
    ensures e in batch && e !in Events(m, row) && LastOf(Events(m, row) + batch, OfPhase, e) ==>
      && (e.change.Retire? ==> AfterLoad(m, row, batch, now).view.status == "closed")
      && (e.change.SetPhase? ==> AfterLoad(m, row, batch, now).view.status == e.change.phase)
      && (e.change.Retire? || e.change.SetPhase?)
    ensures NothingNew(m, row, batch, OfPhase) ==> AfterLoad(m, row, batch, now).view.status == row.view.status
  {
    hide WellFormed, Loadable, ModeOf, Events, AfterLoad, Taken, Le, LastOf, NothingNew;
    forall c ensures Touches(c, Phase) <==> OfPhase(c) { SpeaksIsTouches(c, Phase); }
    LoadAt(m, row, batch, now, Phase);
    if e in batch && e !in Events(m, row) && LastOf(Events(m, row) + batch, OfPhase, e) {
      LastTakes(m, row, batch, OfPhase, Phase, e);
      BatchIsAcceptable(m, row, batch, e);
      LastSpeaks(Events(m, row) + batch, OfPhase, e);
    }
    if NothingNew(m, row, batch, OfPhase) {
      NothingTakes(m, row, batch, OfPhase, Phase);
    }
  }

  lemma LastSpeaks(es: set<Event>, speaks: Change -> bool, e: Event)
    requires LastOf(es, speaks, e)
    ensures speaks(e.change)
  {}

  lemma BatchIsAcceptable(m: Minter, row: Row, batch: set<Event>, e: Event)
    requires Loadable(m, row, batch) && e in batch
    ensures Acceptable(e.change)
  {
    hide Identified, MintsApart, Acceptable;
  }

  /** A label is there afterwards when the last word on it adds it, gone when that removes it, and otherwise as before. */
  lemma LabelAfterLoad(m: Minter, row: Row, batch: set<Event>, now: real, tag: string, e: Event)
    requires WellFormed(row) && Loadable(m, row, batch) && ModeOf(m, row) != Unread
    ensures e in batch && e !in Events(m, row) && LastOf(Events(m, row) + batch, c => OfLabel(c, tag), e) ==>
      && (e.change == LabelAdd(tag) ==> tag in AfterLoad(m, row, batch, now).view.labels)
      && (e.change == LabelRemove(tag) ==> tag !in AfterLoad(m, row, batch, now).view.labels)
    ensures NothingNew(m, row, batch, c => OfLabel(c, tag)) ==>
      (tag in AfterLoad(m, row, batch, now).view.labels <==> tag in row.view.labels)
  {
    hide WellFormed, Loadable, ModeOf, Events, AfterLoad, Taken, Le, LastOf, NothingNew;
    var speaks := (c: Change) => OfLabel(c, tag);
    forall c ensures Touches(c, Label(tag)) <==> speaks(c) { SpeaksIsTouches(c, Label(tag)); }
    LoadAt(m, row, batch, now, Label(tag));
    if e in batch && e !in Events(m, row) && LastOf(Events(m, row) + batch, speaks, e) {
      LastTakes(m, row, batch, speaks, Label(tag), e);
    }
    if NothingNew(m, row, batch, speaks) {
      NothingTakes(m, row, batch, speaks, Label(tag));
    }
  }

  /** The same for a dependency. */
  lemma EdgeAfterLoad(m: Minter, row: Row, batch: set<Event>, now: real, edge: Edge, e: Event)
    requires WellFormed(row) && Loadable(m, row, batch) && ModeOf(m, row) != Unread
    ensures e in batch && e !in Events(m, row) && LastOf(Events(m, row) + batch, c => OfEdge(c, edge), e) ==>
      && (e.change == EdgeAdd(edge) ==> edge in AfterLoad(m, row, batch, now).view.edges)
      && (e.change == EdgeRemove(edge) ==> edge !in AfterLoad(m, row, batch, now).view.edges)
    ensures NothingNew(m, row, batch, c => OfEdge(c, edge)) ==>
      (edge in AfterLoad(m, row, batch, now).view.edges <==> edge in row.view.edges)
  {
    hide WellFormed, Loadable, ModeOf, Events, AfterLoad, Taken, Le, LastOf, NothingNew;
    var speaks := (c: Change) => OfEdge(c, edge);
    forall c ensures Touches(c, EdgeTo(edge)) <==> speaks(c) { SpeaksIsTouches(c, EdgeTo(edge)); }
    LoadAt(m, row, batch, now, EdgeTo(edge));
    if e in batch && e !in Events(m, row) && LastOf(Events(m, row) + batch, speaks, e) {
      LastTakes(m, row, batch, speaks, EdgeTo(edge), e);
    }
    if NothingNew(m, row, batch, speaks) {
      NothingTakes(m, row, batch, speaks, EdgeTo(edge));
    }
  }

  /** The change sets the field, and that is what becomes of it. */
  predicate FieldSetTo(was: map<FieldName, Value>, fields: map<FieldName, Value>, n: FieldName, c: Change) {
    && c.SetField? && c.at == n
    && (c.newValue == None ==> n !in fields)
    && (c.newValue.Some? && (n.Meta? || c.newValue != Some(Text(""))) ==> n in fields && Some(fields[n]) == c.newValue)
    && (c.newValue == Some(Text("")) && n.Column? && n.name != "type" ==> n !in fields)
    && (c.newValue == Some(Text("")) && n == Column("type") ==> n in fields && n in was && fields[n] == was[n])
  }

  /** A field has the value the last word on it sets. bd keeps no empty text in a column: it clears the column, except
      the type, which it keeps. */
  lemma FieldAfterLoad(m: Minter, row: Row, batch: set<Event>, now: real, n: FieldName, e: Event)
    requires WellFormed(row) && Loadable(m, row, batch) && ModeOf(m, row) != Unread
    ensures e in batch && e !in Events(m, row) && LastOf(Events(m, row) + batch, c => OfField(c, n), e) ==>
      FieldSetTo(row.view.fields, AfterLoad(m, row, batch, now).view.fields, n, e.change)
    ensures NothingNew(m, row, batch, c => OfField(c, n)) ==>
      var fields := AfterLoad(m, row, batch, now).view.fields;
      (n in fields <==> n in row.view.fields) && (n in row.view.fields ==> fields[n] == row.view.fields[n])
  {
    hide WellFormed, Loadable, ModeOf, Events, AfterLoad, LastOf, NothingNew, FieldSetTo;
    FieldOfLast(m, row, batch, now, n, c => OfField(c, n), e);
    FieldWithoutWord(m, row, batch, now, n, c => OfField(c, n));
  }

  lemma FieldOfLast(m: Minter, row: Row, batch: set<Event>, now: real, n: FieldName, speaks: Change -> bool, e: Event)
    requires WellFormed(row) && Loadable(m, row, batch) && ModeOf(m, row) != Unread && forall c :: speaks(c) == OfField(c, n)
    ensures e in batch && e !in Events(m, row) && LastOf(Events(m, row) + batch, speaks, e) ==>
      FieldSetTo(row.view.fields, AfterLoad(m, row, batch, now).view.fields, n, e.change)
  {
    HasType(row);
    hide WellFormed, Loadable, ModeOf, Events, AfterLoad, Taken, Le, LastOf, FieldSetTo, Acceptable, Shown;
    if e in batch && e !in Events(m, row) && LastOf(Events(m, row) + batch, speaks, e) {
      forall c ensures Touches(c, Field(n)) <==> speaks(c) { SpeaksIsTouches(c, Field(n)); }
      LoadAt(m, row, batch, now, Field(n));
      LastTakes(m, row, batch, speaks, Field(n), e);
      BatchIsAcceptable(m, row, batch, e);
      LastSpeaks(Events(m, row) + batch, speaks, e);
      FieldEvent(e.change, n);
      FieldShownIs(row, AfterLoad(m, row, batch, now), n, e);
    }
  }

  lemma FieldShownIs(row: Row, row': Row, n: FieldName, e: Event)
    requires e.change.SetField? && e.change.at == n && Column("type") in row.view.fields
    requires ValueAt(row'.view, Field(n)) == Shown(row, e, Field(n))
    ensures FieldSetTo(row.view.fields, row'.view.fields, n, e.change)
  {
    assert ValueAt(row'.view, Field(n)) == FieldIs(Look(row'.view.fields, n));
    assert ValueAt(row.view, Field(n)) == FieldIs(Look(row.view.fields, n));
  }

  lemma FieldWithoutWord(m: Minter, row: Row, batch: set<Event>, now: real, n: FieldName, speaks: Change -> bool)
    requires WellFormed(row) && Loadable(m, row, batch) && ModeOf(m, row) != Unread && forall c :: speaks(c) == OfField(c, n)
    ensures NothingNew(m, row, batch, speaks) ==> Look(AfterLoad(m, row, batch, now).view.fields, n) == Look(row.view.fields, n)
  {
    hide WellFormed, Loadable, ModeOf, Events, AfterLoad, Taken, Le, NothingNew;
    if NothingNew(m, row, batch, speaks) {
      forall c ensures Touches(c, Field(n)) <==> speaks(c) { SpeaksIsTouches(c, Field(n)); }
      LoadAt(m, row, batch, now, Field(n));
      NothingTakes(m, row, batch, speaks, Field(n));
    }
  }

  lemma HasType(row: Row)
    requires WellFormed(row)
    ensures Column("type") in row.view.fields
  {}

  // ----- when a stored event still shows -----

  /** A stored event is given back with its own id exactly while the row shows what it says. */
  lemma OwnIff(row: Row, f: Facet)
    requires WellFormed(row)
    ensures Own(row, f).Some? ==> f in row.document && Own(row, f).value == row.document[f]
    ensures f == Exists ==> Own(row, f).None?
    ensures f.Phase? && f in row.document ==>
      (Own(row, f).Some? <==>
        || (row.document[f].change.Retire? && row.view.status == "closed")
        || (row.document[f].change == SetPhase("retired") && row.view.status == "closed")
        || (row.document[f].change.SetPhase? && row.document[f].change.phase != "retired" && row.view.status == row.document[f].change.phase))
    ensures f.Label? && f in row.document ==>
      (Own(row, f).Some? <==>
        || (row.document[f].change == LabelAdd(f.tag) && f.tag in row.view.labels)
        || (row.document[f].change == LabelRemove(f.tag) && f.tag !in row.view.labels))
    ensures f.EdgeTo? && f in row.document ==>
      (Own(row, f).Some? <==>
        || (row.document[f].change == EdgeAdd(f.edge) && f.edge in row.view.edges)
        || (row.document[f].change == EdgeRemove(f.edge) && f.edge !in row.view.edges))
    ensures f.Field? && f in row.document ==>
      (Own(row, f).Some? <==>
        || (row.document[f].change == SetField(f.at, None) && f.at !in row.view.fields)
        || (f.at in row.view.fields && row.document[f].change == SetField(f.at, Some(row.view.fields[f.at]))))
  {
    if f in row.document && f != Exists {
      var c := row.document[f].change;
      match f
      case Field(n) => assert c.SetField? && c.at == n;
      case Label(t) => assert c == LabelAdd(t) || c == LabelRemove(t);
      case EdgeTo(x) => assert c == EdgeAdd(x) || c == EdgeRemove(x);
      case Phase => assert c.SetPhase? || c.Retire?;
      case _ =>
    }
  }

  // ----- what is minted -----

  /** The event reads as happening at a time and recorded at the row's last update. */
  predicate ReadAs(m: Minter, row: Row, e: Event, c: Change, at: real) {
    e == Event(Stamp(At(at), At(row.updatedAt), m(c, row.updatedAt)), c)
  }

  /** Labels and dependencies of the row, and a status other than open, each as an event of its own; bd knows when a
      dependency was added and when the status changed, at most. */
  ghost predicate NativelyRead(m: Minter, row: Row, e: Event) {
    || (exists t :: t in row.view.labels && ReadAs(m, row, e, LabelAdd(t), row.updatedAt))
    || (exists x :: x in row.view.edges && x in row.edgesAt && ReadAs(m, row, e, EdgeAdd(x), row.edgesAt[x]))
    || (exists x :: x in row.view.edges && x !in row.edgesAt && ReadAs(m, row, e, EdgeAdd(x), row.updatedAt))
    || (row.view.status != "open"
        && ReadAs(m, row, e, SetPhase(row.view.status), if row.phaseAt.Some? then row.phaseAt.value else row.updatedAt))
  }

  lemma NativeIff(m: Minter, row: Row, e: Event)
    ensures (exists f :: Native(m, row, f) == Some(e)) <==> NativelyRead(m, row, e)
  {
    if f :| Native(m, row, f) == Some(e) {
      match f
      case Label(t) => assert ReadAs(m, row, e, LabelAdd(t), row.updatedAt);
      case EdgeTo(x) =>
        assert x in row.edgesAt ==> ReadAs(m, row, e, EdgeAdd(x), row.edgesAt[x]);
        assert x !in row.edgesAt ==> ReadAs(m, row, e, EdgeAdd(x), row.updatedAt);
      case Phase =>
      case _ =>
    }
    if t :| t in row.view.labels && ReadAs(m, row, e, LabelAdd(t), row.updatedAt) {
      assert Native(m, row, Label(t)) == Some(e);
    }
    if x :| x in row.view.edges && x in row.edgesAt && ReadAs(m, row, e, EdgeAdd(x), row.edgesAt[x]) {
      assert Native(m, row, EdgeTo(x)) == Some(e);
    }
    if x :| x in row.view.edges && x !in row.edgesAt && ReadAs(m, row, e, EdgeAdd(x), row.updatedAt) {
      assert Native(m, row, EdgeTo(x)) == Some(e);
    }
    if row.view.status != "open"
        && ReadAs(m, row, e, SetPhase(row.view.status), if row.phaseAt.Some? then row.phaseAt.value else row.updatedAt) {
      assert Native(m, row, Phase) == Some(e);
    }
  }

  // ----- the order of events -----

  /** Events are ordered by when they happened, those of unknown time last, then by when they were recorded, then by id. */
  lemma OrderWritten(s: real, t: real, j: Instant, k: Instant, a: string, b: string)
    requires s < t
    ensures Le(Stamp(At(s), j, a), Stamp(At(t), k, b)) && !Le(Stamp(At(t), k, b), Stamp(At(s), j, a))
    ensures Le(Stamp(At(s), j, a), Stamp(Never, k, b)) && !Le(Stamp(Never, k, b), Stamp(At(s), j, a))
    ensures Le(Stamp(k, At(s), a), Stamp(k, At(t), b)) && !Le(Stamp(k, At(t), b), Stamp(k, At(s), a))
    ensures Le(Stamp(k, At(s), a), Stamp(k, Never, b)) && !Le(Stamp(k, Never, b), Stamp(k, At(s), a))
    ensures Le(Stamp(j, k, a), Stamp(j, k, b)) <==>
      a <= b || exists i :: 0 <= i < |a| && i < |b| && a[..i] == b[..i] && a[i] < b[i]
  {
    AtMostIff(a, b);
  }

  /** Everything that is read of a row: all that is stored; or a create minted at the bead's creation with every field the
      row shows, beside the stored events that still show and a minted event for each facet without one; or
      minted events only; or nothing. */
  lemma ReadingIs(m: Minter, row: Row, e: Event)
    requires WellFormed(row)
    ensures e in Events(m, row) <==>
      match ModeOf(m, row)
      case Stored => (Exists in row.document && e == row.document[Exists]) || (exists f :: Own(row, f) == Some(e))
      case Mixed =>
        || ReadAs(m, row, e, Create(row.view.fields), row.createdAt)
        || (exists f :: Own(row, f) == Some(e))
        || (exists f :: Own(row, f).None? && Native(m, row, f) == Some(e))
      case Snapshot => ReadAs(m, row, e, Create(row.view.fields), row.createdAt) || NativelyRead(m, row, e)
      case Unread => false
  {
    hide WellFormed, ModeOf, Events, Own, Native, NativelyRead;
    EmittedIs(m, row, e);
    NativeIff(m, row, e);
    var mode := ModeOf(m, row);
    match mode
    case Stored =>
      if f :| Own(row, f) == Some(e) { assert OwnIn(m, row, mode, f) == Some(e); }
      if f :| OwnIn(m, row, mode, f) == Some(e) { assert Own(row, f) == Some(e); }
    case Mixed =>
      if f :| Own(row, f) == Some(e) { assert OwnIn(m, row, mode, f) == Some(e); }
      if f :| Own(row, f).None? && Native(m, row, f) == Some(e) { assert OwnIn(m, row, mode, f) == Some(e); }
    case Snapshot =>
      if f :| Native(m, row, f) == Some(e) { assert OwnIn(m, row, mode, f) == Some(e); }
      if f :| OwnIn(m, row, mode, f) == Some(e) { assert Native(m, row, f) == Some(e); }
    case Unread =>
  }
}
