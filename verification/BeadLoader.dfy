/** Loading events into a bead that is already in the store: fold what the store re-emits together
    with the batch, write the difference, and remember the deciding events. */
module BeadLoader {
  import opened Wrappers
  import opened BeadLog
  import opened BeadStore
  import opened BeadReader

  // ----- what a load takes -----

  /** The changes a load of an existing bead is about. */
  predicate Ordinary(c: Change) {
    c.SetField? || c.LabelAdd? || c.LabelRemove? || c.EdgeAdd? || c.EdgeRemove? || c.SetPhase? || c.Retire?
  }

  /** Sets a column to the empty text, which bd does not keep. */
  predicate Blank(c: Change) {
    c.SetField? && c.at.Column? && c.newValue == Some(Text(""))
  }

  /** A value bd can be asked to put in a column of an existing bead. bd refuses an empty title, so the load of
      one raises. */
  predicate ColumnTakes(name: string, v: Option<Value>) {
    && name in WRITABLE
    && (v.None? ==> name !in UNCLEARABLE)
    && (v.Some? ==> if name in INTEGERS then v.value.Integer? else v.value.Text?)
    && !(name == "title" && v == Some(Text("")))
  }

  predicate Acceptable(c: Change) {
    && Ordinary(c)
    && (c.SetField? && c.at.Column? ==> ColumnTakes(c.at.name, c.newValue))
    && (c.SetPhase? ==> StatusOf(c.phase) == c.phase)
  }

  ghost function DocumentEvents(row: Row): set<Event> {
    row.document.Values
  }

  /** When bd says that something minted happened; None for when the row was last written. */
  function MintDate(row: Row, c: Change): Option<real> {
    match c
    case Create(_) => Some(row.createdAt)
    case EdgeAdd(e) => DateOf(row, EdgeTo(e))
    case SetPhase(_) => row.phaseAt
    case _ => None
  }

  predicate Mintable(c: Change) {
    c.Create? || c.LabelAdd? || c.EdgeAdd? || c.SetPhase?
  }

  /** In one reading different changes get different ids, and an event with an id that some reading of the row gives
      is what that reading minted. */
  ghost predicate MintsApart(m: Minter, row: Row, es: set<Event>) {
    && (forall c, u, e :: e in es && Mintable(c) && m(c, u) == e.stamp.id ==> e == Minted(m, c, MintDate(row, c), u))
    && (forall c: Change, c': Change, u :: Mintable(c) && Mintable(c') && m(c, u) == m(c', u) ==> c == c')
  }

  /** A batch the loader takes: acceptable events, no id that means two different events. */
  ghost predicate Loadable(m: Minter, row: Row, batch: set<Event>) {
    && (forall e :: e in batch ==> Acceptable(e.change))
    && Identified(DocumentEvents(row) + batch) && MintsApart(m, row, DocumentEvents(row) + batch)
  }

  // ----- what a load does -----

  /** The key a stored event goes under; deletes and tombstones are not stored. */
  function KeyOf(c: Change): Option<Facet> {
    if c.Create? || c.Checkpoint? then Some(Exists)
    else if c.Delete? || c.Tombstone? then None
    else Some(FacetOf(c))
  }

  /** Each new decider goes into the document. */
  function Updated(m: Minter, row: Row, out: map<Facet, Event>): map<Facet, Event> {
    row.document + (map f | f in out && out[f] !in Events(m, row) && KeyOf(out[f].change) == Some(f) :: out[f])
  }

  function PlanFor(m: Minter, row: Row, out: map<Facet, Event>): Plan {
    Diff(StateAt(Base(m, row)), StateAt(out))
  }

  /** The plan is carried out when it changes a value or the document. */
  predicate Writes(m: Minter, row: Row, out: map<Facet, Event>) {
    Updated(m, row, out) != row.document || !IsEmpty(PlanFor(m, row, out))
  }

  /** The row after its events are decided; a row that cannot be read back has no create to load into. */
  function AfterDeciding(m: Minter, row: Row, out: map<Facet, Event>, now: real): Row {
    if ModeOf(m, row) != Unread && Writes(m, row, out)
    then row.(view := Executed(row.view, PlanFor(m, row, out)), document := Updated(m, row, out), updatedAt := now)
    else row
  }

  ghost function Outcome(m: Minter, row: Row, batch: set<Event>): map<Facet, Event> {
    DeciderMap(Events(m, row) + batch)
  }

  /** The row after a load whose writes, if there are any, happen at time `now`. */
  ghost function AfterLoad(m: Minter, row: Row, batch: set<Event>, now: real): Row {
    AfterDeciding(m, row, Outcome(m, row, batch), now)
  }

  // ----- ids -----

  /** An emitted event is stored or minted. */
  lemma EmittedOrigin(m: Minter, row: Row, e: Event)
    requires WellFormed(row) && e in Events(m, row) && e !in DocumentEvents(row)
    ensures Mintable(e.change) && e == Minted(m, e.change, MintDate(row, e.change), row.updatedAt)
  {
    hide ModeOf, WellFormed, Scope, Events;
    EmittedIs(m, row, e);
  }

  /** No checkpoint is emitted. */
  lemma EmittedKind(m: Minter, row: Row, e: Event)
    requires WellFormed(row) && e in Events(m, row)
    ensures !e.change.Checkpoint?
  {
    hide WellFormed, Events, ModeOf, OwnIn, CreateIn;
    var mode := ModeOf(m, row);
    EmittedIs(m, row, e);
    if CreateIn(m, row, mode) == Some(e) {
      CreateTouches(m, row, mode);
    } else {
      var f :| OwnIn(m, row, mode, f) == Some(e);
      OwnTouches(m, row, mode, f);
    }
  }

  lemma MintedId(m: Minter, c: Change, dated: Option<real>, u: real)
    ensures Minted(m, c, dated, u).stamp.id == m(c, u)
  {}

  /** A batch whose ids are unambiguous beside the stored ones does not collide with what is minted. */
  lemma LoadableIdentified(m: Minter, row: Row, batch: set<Event>)
    requires WellFormed(row) && Loadable(m, row, batch)
    ensures Identified(Events(m, row) + batch)
  {
    hide Acceptable, Events, WellFormed, Minted, MintDate, Mintable;
    forall e, x | e in Events(m, row) + batch && x in Events(m, row) + batch && e.stamp.id == x.stamp.id ensures e == x {
      if e !in DocumentEvents(row) + batch {
        EmittedOrigin(m, row, e);
        MintedId(m, e.change, MintDate(row, e.change), row.updatedAt);
      }
      if x !in DocumentEvents(row) + batch {
        EmittedOrigin(m, row, x);
        MintedId(m, x.change, MintDate(row, x.change), row.updatedAt);
      }
    }
  }

  // ----- the outcome of a load -----

  /** The event takes the facet from what the row holds. */
  predicate Wins(m: Minter, row: Row, e: Event, f: Facet) {
    var r := ReadAt(m, row, f);
    r.None? || !Le(e.stamp, r.value.stamp)
  }

  /** The batch takes the facet. */
  ghost predicate Taken(m: Minter, row: Row, batch: set<Event>, f: Facet) {
    Touched(batch, f) && Wins(m, row, DeciderOf(batch, f), f)
  }

  lemma OutcomeAt(m: Minter, row: Row, batch: set<Event>, out: map<Facet, Event>, f: Facet)
    requires WellFormed(row) && Loadable(m, row, batch) && DecidersOf(Events(m, row) + batch, out)
    ensures Taken(m, row, batch, f) ==> f in out && out[f] == DeciderOf(batch, f) && out[f] !in Events(m, row)
    ensures !Taken(m, row, batch, f) ==>
      && (f in out <==> ReadAt(m, row, f).Some?)
      && (f in out ==> out[f] == ReadAt(m, row, f).value && out[f] in Events(m, row))
  {
    hide Le, Touches, WellFormed, Loadable, Base, DecidersOf, Events, ReadAt;
    var es := Events(m, row) + batch;
    BaseDecides(m, row);
    InBase(m, row, f);
    LoadableIdentified(m, row, batch);
    DecidersAt(Events(m, row), Base(m, row), f);
    DecidersAt(es, out, f);
    if Taken(m, row, batch, f) {
      var e := DeciderOf(batch, f);
      assert e in es;
      forall x | x in Events(m, row) && Touches(x.change, f) ensures f in Base(m, row) && Le(x.stamp, Base(m, row)[f].stamp) {
        TouchedBy(Events(m, row), f, x);
        DeciderBeats(Events(m, row), f, Base(m, row)[f], x);
      }
      forall x | x in es && Touches(x.change, f) ensures Le(x.stamp, e.stamp) {
        if x in Events(m, row) {
          LeTotal(e.stamp, Base(m, row)[f].stamp);
          LeTransitive(x.stamp, Base(m, row)[f].stamp, e.stamp);
        }
      }
      TouchedBy(es, f, e);
      DeciderUnique(es, f, e, out[f]);
    } else if f in Base(m, row) {
      var e := Base(m, row)[f];
      assert e in es;
      forall x | x in es && Touches(x.change, f) ensures Le(x.stamp, e.stamp) {
        if x in batch {
          TouchedBy(batch, f, x);
          DeciderBeats(batch, f, DeciderOf(batch, f), x);
          LeTransitive(x.stamp, DeciderOf(batch, f).stamp, e.stamp);
        }
      }
      TouchedBy(es, f, e);
      DeciderUnique(es, f, e, out[f]);
    } else if f in out {
      assert out[f] in batch;
      TouchedBy(batch, f, out[f]);
    }
  }

  /** What bd shows of a facet once an event has taken it. */
  function Shown(row: Row, e: Event, f: Facet): FacetValue {
    if !Blank(e.change) then Says(e.change, f)
    else if f == Field(TYPE) then ValueAt(row.view, f)
    else FieldIs(None)
  }

  lemma EmptyPlan(v: View, p: Plan)
    requires IsEmpty(p)
    ensures Executed(v, p) == v
  {
    var w := Executed(v, p);
    assert w.fields == v.fields;
  }

  /** Written or not, a row that can be read ends with the plan carried out and the document updated. */
  lemma AfterIs(m: Minter, row: Row, out: map<Facet, Event>, now: real)
    requires ModeOf(m, row) != Unread
    ensures var row' := AfterDeciding(m, row, out, now);
      && row'.view == Executed(row.view, PlanFor(m, row, out)) && row'.document == Updated(m, row, out)
      && row'.updatedAt == (if Writes(m, row, out) then now else row.updatedAt)
      && row'.createdAt == row.createdAt && row'.phaseAt == row.phaseAt && row'.edgesAt == row.edgesAt
  {
    hide Executed, PlanFor, IsEmpty, ModeOf, Updated;
    if IsEmpty(PlanFor(m, row, out)) {
      EmptyPlan(row.view, PlanFor(m, row, out));
    }
  }

  lemma PlanShows(was: BeadState, now: BeadState, f: Facet)
    ensures !f.Field? ==> ValueAt(Executed(ViewOf(was), Diff(was, now)), f) == ValueAt(ViewOf(now), f)
  {
    hide Executed, Diff;
    EdgesReached(was, now);
    LabelsAndStatusReached(was, now);
  }

  /** A single event that touches a field sets it. */
  lemma FieldEvent(c: Change, n: FieldName)
    requires Acceptable(c) && Touches(c, Field(n))
    ensures c.SetField? && c.at == n
  {}

  /** What is read is what the row shows. */
  lemma BaseShows(m: Minter, row: Row)
    requires WellFormed(row) && ModeOf(m, row) != Unread
    ensures ViewOf(StateAt(Base(m, row))) == row.view
  {
    hide *;
    ReadsBackIff(m, row);
  }

  lemma FieldShown(m: Minter, row: Row, batch: set<Event>, out: map<Facet, Event>, n: FieldName)
    requires WellFormed(row) && Loadable(m, row, batch) && ModeOf(m, row) != Unread && DecidersOf(Events(m, row) + batch, out)
    ensures var got := Look(Executed(row.view, PlanFor(m, row, out)).fields, n);
      if Taken(m, row, batch, Field(n)) then FieldIs(got) == Shown(row, DeciderOf(batch, Field(n)), Field(n))
      else got == Look(row.view.fields, n)
  {
    hide Executed, Diff, DecidersOf, Base, Taken, Touches, Le, Events, ReadAt, ModeOf, StateAt, Identified, MintsApart;
    var f := Field(n);
    var was, now := StateAt(Base(m, row)), StateAt(out);
    OutcomeAt(m, row, batch, out, f);
    BaseShows(m, row);
    ReaderExplains(m, row, f);
    StateShows(out, f);
    FieldReached(was, now, n);
    if Taken(m, row, batch, f) {
      TakenFacts(m, row, batch, f);
      FieldEvent(DeciderOf(batch, f).change, n);
      NoBlankShown(row, n);
    }
  }

  lemma NoBlankShown(row: Row, n: FieldName)
    requires WellFormed(row)
    ensures n.Column? ==> Look(row.view.fields, n) != Some(Text(""))
  {}

  lemma TakenFacts(m: Minter, row: Row, batch: set<Event>, f: Facet)
    requires Taken(m, row, batch, f) && forall e :: e in batch ==> Acceptable(e.change)
    ensures Touched(batch, f) && Touches(DeciderOf(batch, f).change, f)
    ensures DeciderOf(batch, f) in batch && Acceptable(DeciderOf(batch, f).change) && Wins(m, row, DeciderOf(batch, f), f)
  {
    hide Touches, Le, ReadAt;
  }

  lemma AcceptableIsSingle(c: Change, f: Facet)
    requires Acceptable(c)
    ensures Single(c) && KeyOf(c) == Some(FacetOf(c)) && FacetOf(c) != Exists && (Touches(c, f) <==> f == FacetOf(c))
  {}

  lemma BlankIsField(c: Change, f: Facet)
    requires Touches(c, f)
    ensures Blank(c) ==> f.Field? && c.at == f.at
  {}

  /** The value and the document entry of every facet after a load. */
  lemma LoadAt(m: Minter, row: Row, batch: set<Event>, now: real, f: Facet)
    requires WellFormed(row) && Loadable(m, row, batch) && ModeOf(m, row) != Unread
    ensures var row' := AfterLoad(m, row, batch, now);
      if Taken(m, row, batch, f) then
        && f in row'.document && row'.document[f] == DeciderOf(batch, f)
        && ValueAt(row'.view, f) == Shown(row, DeciderOf(batch, f), f)
      else
        && (f in row'.document <==> f in row.document) && (f in row.document ==> row'.document[f] == row.document[f])
        && ValueAt(row'.view, f) == ValueAt(row.view, f)
  {
    hide Executed, DecidersOf, Le, Touches, Taken, Base, Writes, Events, ReadAt, ModeOf, StateAt, WellFormed, Identified, MintsApart, Diff;
    var out := Outcome(m, row, batch);
    OutcomeAt(m, row, batch, out, f);
    AfterIs(m, row, out, now);
    if f.Field? {
      FieldShown(m, row, batch, out, f.at);
    } else {
      PlanShows(StateAt(Base(m, row)), StateAt(out), f);
      BaseShows(m, row);
      StateShows(out, f);
      ReaderExplains(m, row, f);
    }
    if Taken(m, row, batch, f) {
      TakenFacts(m, row, batch, f);
      BlankIsField(DeciderOf(batch, f).change, f);
      AcceptableIsSingle(DeciderOf(batch, f).change, f);
    }
  }

  /** The same bead at the same times of its own, and the same row until it is written again. */
  predicate SameTimes(row: Row, mid: Row) {
    && Born(mid) == Born(row) && mid.createdAt == row.createdAt && mid.phaseAt == row.phaseAt && mid.edgesAt == row.edgesAt
    && row.updatedAt <= mid.updatedAt && (mid.updatedAt == row.updatedAt ==> mid == row)
  }

  lemma TimesAfter(m: Minter, row: Row, batch: set<Event>, now: real)
    requires WellFormed(row) && Loadable(m, row, batch) && row.updatedAt < now
    ensures SameTimes(row, AfterLoad(m, row, batch, now)) && AfterLoad(m, row, batch, now).updatedAt <= now
  {
    hide Executed, PlanFor, Writes, Updated, WellFormed, Loadable, ModeOf;
    if ModeOf(m, row) != Unread {
      OwnAfter(m, row, batch, now, Exists);
    }
  }

  /** A facet's own event after a load: the event that took it, while bd shows what it says. */
  lemma OwnAfter(m: Minter, row: Row, batch: set<Event>, now: real, f: Facet)
    requires WellFormed(row) && Loadable(m, row, batch) && ModeOf(m, row) != Unread
    ensures var row' := AfterLoad(m, row, batch, now);
      Own(row', f) ==
        if Taken(m, row, batch, f) then (if Blank(DeciderOf(batch, f).change) then None else Some(DeciderOf(batch, f)))
        else Own(row, f)
    ensures Born(AfterLoad(m, row, batch, now)) == Born(row)
  {
    hide AfterLoad, Le, Touches, Taken, ReadAt, ModeOf, Identified, MintsApart;
    var row' := AfterLoad(m, row, batch, now);
    LoadAt(m, row, batch, now, f);
    LoadAt(m, row, batch, now, Exists);
    NeverTaken(m, row, batch);
    if Taken(m, row, batch, f) {
      TakenFacts(m, row, batch, f);
      var e := DeciderOf(batch, f);
      AcceptableIsSingle(e.change, f);
      BlankIsField(e.change, f);
      if f.Field? {
        FieldEvent(e.change, f.at);
        NoBlankShown(row, f.at);
      }
    }
  }

  lemma NeverTaken(m: Minter, row: Row, batch: set<Event>)
    requires forall e :: e in batch ==> Acceptable(e.change)
    ensures !Taken(m, row, batch, Exists)
  {
    hide Wins;
  }

  // ----- the row stays well formed -----

  lemma FieldsAfter(m: Minter, row: Row, batch: set<Event>, now: real, n: FieldName)
    requires WellFormed(row) && Loadable(m, row, batch) && ModeOf(m, row) != Unread
    ensures var got := Look(AfterLoad(m, row, batch, now).view.fields, n);
      (n.Column? ==> got != Some(Text(""))) && (n == TYPE ==> got.Some?)
  {
    hide AfterLoad, Le, Taken, DeciderOf, Touches, ModeOf, Identified, MintsApart;
    var f := Field(n);
    LoadAt(m, row, batch, now, f);
    NoBlankShown(row, n);
    if Taken(m, row, batch, f) {
      TakenFacts(m, row, batch, f);
      FieldEvent(DeciderOf(batch, f).change, n);
    }
  }

  lemma DocumentAfter(m: Minter, row: Row, batch: set<Event>, now: real, f: Facet)
    requires WellFormed(row) && Loadable(m, row, batch) && ModeOf(m, row) != Unread && f in AfterLoad(m, row, batch, now).document
    ensures var e := AfterLoad(m, row, batch, now).document[f];
      && (if f == Exists then e.change.Create? else Single(e.change) && FacetOf(e.change) == f)
      && (e in DocumentEvents(row) || e in batch)
  {
    hide AfterLoad, Le, Taken, DeciderOf, ModeOf, Identified, MintsApart, Touches;
    LoadAt(m, row, batch, now, f);
    if Taken(m, row, batch, f) {
      TakenFacts(m, row, batch, f);
      AcceptableIsSingle(DeciderOf(batch, f).change, f);
    }
  }

  lemma StatusAfter(m: Minter, row: Row, batch: set<Event>, now: real)
    requires WellFormed(row) && Loadable(m, row, batch) && ModeOf(m, row) != Unread
    ensures var s := AfterLoad(m, row, batch, now).view.status; StatusOf(s) == s
  {
    hide AfterLoad, Le, Taken, DeciderOf, ModeOf, Identified, MintsApart, Touches;
    LoadAt(m, row, batch, now, Phase);
    if Taken(m, row, batch, Phase) {
      TakenFacts(m, row, batch, Phase);
    }
  }

  /** A load leaves a well-formed row, whose reading folds to what it shows unless it is unread. */
  lemma LoadKeepsWellFormed(m: Minter, row: Row, batch: set<Event>, now: real)
    requires WellFormed(row) && Loadable(m, row, batch)
    ensures WellFormed(AfterLoad(m, row, batch, now))
  {
    hide AfterDeciding, Outcome, Loadable, ModeOf;
    var row' := AfterLoad(m, row, batch, now);
    if ModeOf(m, row) == Unread {
      UnreadStays(m, row, batch, now);
    } else {
      forall f | f in row'.document
        ensures if f == Exists then row'.document[f].change.Create?
                else Single(row'.document[f].change) && FacetOf(row'.document[f].change) == f
      {
        DocumentAfter(m, row, batch, now, f);
      }
      forall n ensures n in row'.view.fields ==> !(n.Column? && row'.view.fields[n] == Text("")) {
        FieldsAfter(m, row, batch, now, n);
      }
      FieldsAfter(m, row, batch, now, TYPE);
      StatusAfter(m, row, batch, now);
    }
  }

  lemma UnreadStays(m: Minter, row: Row, batch: set<Event>, now: real)
    requires ModeOf(m, row) == Unread
    ensures AfterLoad(m, row, batch, now) == row
  {}
}
