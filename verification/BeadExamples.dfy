/** Beads on which the order of loads matters. */
module BeadExamples {
  import opened Wrappers
  import opened BeadLog
  import opened BeadStore
  import opened BeadReader
  import opened BeadLoader
  import opened BeadConvergence
  import opened BeadFields
  import opened BeadSettled
  import opened BeadOrder

  const TITLE := Column("title")
  const NOTES := Column("notes")

  /** An open bead with fields and labels, created by a stored event or in bd itself. */
  function BeadRow(born: Option<Event>, fields: map<FieldName, Value>, tags: set<string>, createdAt: real, updatedAt: real): Row {
    var document := if born.Some? then map[Exists := born.value] else map[];
    Row(View(fields, tags, {}, "open"), document, createdAt, None, map[], updatedAt)
  }

  /** A title and a type, no empty columns, no notes yet, and a create that says the same if one is stored. */
  predicate Fresh(born: Option<Event>, fields: map<FieldName, Value>) {
    && TITLE in fields && TYPE in fields && NOTES !in fields
    && (forall n :: n in fields ==> fields[n] != Text(""))
    && (born.Some? ==> born.value.change == Create(fields))
  }

  lemma FreshMode(m: Minter, born: Option<Event>, fields: map<FieldName, Value>, tags: set<string>, c: real, u: real)
    requires Fresh(born, fields)
    ensures var row := BeadRow(born, fields, tags, c, u);
      && WellFormed(row) && PhaseHeld(row) && ReadAt(m, row, Field(NOTES)).None?
      && ModeOf(m, row) == if born.Some? && tags == {} then Stored else Mixed
    ensures var row := BeadRow(born, fields, tags, c, u); forall t :: t in tags ==> Unexplained(m, row, Label(t))
  {
    hide Le, Minted, Explains;
    var row := BeadRow(born, fields, tags, c, u);
    MintedChange(m, row);
    if born.None? {
      NoCreate(m, row);
    } else if tags == {} {
      forall f ensures Tells(ReadIn(m, row, Stored, f), f) == ValueAt(row.view, f) {}
      ExplainsAll(m, row, Stored);
    } else {
      var t :| t in tags;
      NotExplained(m, row, Stored, Label(t));
    }
    forall f ensures Tells(ReadIn(m, row, Mixed, f), f) == ValueAt(row.view, f) {
      MixedReads(m, row, f);
    }
    ExplainsAll(m, row, Mixed);
  }

  /** Ids that are all different. */
  ghost predicate Apart(m: Minter, row: Row, es: set<Event>) {
    Identified(DocumentEvents(row) + es) && MintsApart(m, row, DocumentEvents(row) + es)
  }

  // ----- read from stored events -----

  /** A note and a later event that sets the notes to the empty text, on a bead as it was loaded: together, the
      notes end clear; with the note loaded last they end with the note. */
  lemma NotesOrderMatters(m: Minter, born: Event, fields: map<FieldName, Value>, c: real, u: real, x: Event, y: Event, note: string)
    requires Fresh(Some(born), fields) && Apart(m, BeadRow(Some(born), fields, {}, c, u), {x, y})
    requires x.change == SetField(NOTES, Some(Text(note))) && note != "" && y.change == SetField(NOTES, Some(Text("")))
    requires x != y && Le(x.stamp, y.stamp)
    ensures var row, f := BeadRow(Some(born), fields, {}, c, u), Field(NOTES);
      var a, b := [Load({x, y}, u + 1.0)], [Load({y}, u + 1.0), Load({x}, u + 2.0)];
      && Splits(m, row, {x, y}, a) && Splits(m, row, {x, y}, b)
      && ValueAt(AfterLoads(m, row, a).view, f) == FieldIs(None)
      && ValueAt(AfterLoads(m, row, b).view, f) == FieldIs(Some(Text(note)))
  {
    hide WellFormed, ModeOf, AfterLoads, ReadAt, Le, DeciderOf, Splits, Identified, MintsApart;
    var row, f, es := BeadRow(Some(born), fields, {}, c, u), Field(NOTES), {x, y};
    FreshMode(m, Some(born), fields, {}, c, u);
    assert "notes" in WRITABLE;
    LoadableIds(m, row, es);
    GreatestOfTwo(x, y, f);
    assert es - {x} == {y};
    BlankOrderMatters(m, row, es, f, x);
  }

  lemma GreatestOfTwo(x: Event, y: Event, f: Facet)
    requires Touches(x.change, f) && Touches(y.change, f) && Le(x.stamp, y.stamp) && Identified({x, y})
    ensures Touched({x, y}, f) && DeciderOf({x, y}, f) == y
  {
    hide Le, Touches;
    assert y in {x, y} && x in {x, y};
    LeTotal(y.stamp, y.stamp);
    assert Decides({x, y}, f, y);
    DeciderUnique({x, y}, f, y, DeciderOf({x, y}, f));
  }

  // ----- read with a minted create -----

  /** Two events for a field that the row says nothing about, both from before the creation: together, the later one
      shows; loaded one after the other, the first is in by then, the minted create owns the field at the creation,
      and the later event is shut out. */
  lemma EarlyOrderMatters(m: Minter, row: Row, f: Facet, a: Event, b: Event)
    requires WellFormed(row) && Loadable(m, row, {a, b}) && Steady(m, row, {a, b}) && ModeOf(m, row) == Mixed
    requires f.Field? && ReadAt(m, row, f).None? && Loud(a, f) && Loud(b, f)
    requires Le(a.stamp, b.stamp) && Earlier(b.stamp.k1, At(row.createdAt))
    ensures var u := row.updatedAt; var both, apart := [Load({a, b}, u + 1.0)], [Load({a}, u + 1.0), Load({b}, u + 2.0)];
      && Splits(m, row, {a, b}, both) && Splits(m, row, {a, b}, apart)
      && ValueAt(AfterLoads(m, row, both).view, f) == Says(b.change, f)
      && ValueAt(AfterLoads(m, row, apart).view, f) == Says(a.change, f)
  {
    hide WellFormed, ModeOf, AfterLoad, AfterLoads, ReadAt, Le, DeciderOf, Splits, Touches, Loadable, Steady, Along, Identified, Blank;
    var u, es := row.updatedAt, {a, b};
    LoadableIds(m, row, es);
    GreatestOfTwo(a, b, f);
    Together(m, row, es, f);
    ShownPlainly(row, b, f);
    assert {a} + {b} == es;
    TwoLoads(m, row, {a}, {b}, u + 1.0, u + 2.0);
    OnlyDecider(a, f);
    LoadAt(m, row, {a}, u + 1.0, f);
    ShownPlainly(row, a, f);
    var mid := AfterLoad(m, row, {a}, u + 1.0);
    SteadyPhase(m, row, es);
    AlongStart(m, row, es);
    AlongStep(m, row, es, row, {a}, u + 1.0);
    AlongMode(m, row, es, mid);
    OnlyDecider(b, f);
    ShutByCreate(m, mid, f, b);
    LoadAt(m, mid, {b}, u + 2.0, f);
  }

  lemma LoadableIds(m: Minter, row: Row, es: set<Event>)
    requires Loadable(m, row, es)
    ensures Identified(es)
  {
    hide Acceptable;
  }

  lemma ShutByCreate(m: Minter, row: Row, f: Facet, b: Event)
    requires ModeOf(m, row) == Mixed && f.Field? && ValueAt(row.view, f) != FieldIs(None) && Earlier(b.stamp.k1, At(row.createdAt))
    ensures !Wins(m, row, b, f)
  {
    hide ModeOf, Le, Own, MintedCreate;
    ShownField(m, row, f);
    EarlyLoses(m, row, b.stamp);
    WinsOverBoth(m, row, b, f);
  }

  /** Two notes from before the creation, on a bead created in bd itself or with a label entered directly in bd. */
  lemma EarlyNotesOrderMatters(m: Minter, born: Option<Event>, fields: map<FieldName, Value>, tags: set<string>, c: real, u: real,
    a: Event, b: Event, x: string, y: string)
    requires Fresh(born, fields) && (born.None? || tags != {}) && Apart(m, BeadRow(born, fields, tags, c, u), {a, b})
    requires a.change == SetField(NOTES, Some(Text(x))) && b.change == SetField(NOTES, Some(Text(y))) && x != "" && y != ""
    requires Le(a.stamp, b.stamp) && Earlier(b.stamp.k1, At(c))
    ensures var row, f := BeadRow(born, fields, tags, c, u), Field(NOTES);
      var both, apart := [Load({a, b}, u + 1.0)], [Load({a}, u + 1.0), Load({b}, u + 2.0)];
      && Splits(m, row, {a, b}, both) && Splits(m, row, {a, b}, apart)
      && ValueAt(AfterLoads(m, row, both).view, f) == FieldIs(Some(Text(y)))
      && ValueAt(AfterLoads(m, row, apart).view, f) == FieldIs(Some(Text(x)))
  {
    hide WellFormed, ModeOf, AfterLoads, ReadAt, Le, DeciderOf, Splits, Identified, MintsApart, Unexplained;
    var row := BeadRow(born, fields, tags, c, u);
    FreshMode(m, born, fields, tags, c, u);
    assert "notes" in WRITABLE;
    if born.Some? {
      var t :| t in tags;
      assert Unexplained(m, row, Label(t)) && !Touched({a, b}, Label(t));
    }
    EarlyOrderMatters(m, row, Field(NOTES), a, b);
  }

  /** A label entered directly in bd and an event that removes it at a later time: loaded together with an event for
      another label, the removal wins; loaded after it, written late enough, the label stays. */
  lemma LabelOrderMatters(m: Minter, born: Event, fields: map<FieldName, Value>, tags: set<string>, c: real, u: real,
    x: Event, y: Event, tag: string, other: string, kept: string) returns (late: real)
    requires Fresh(Some(born), fields) && Apart(m, BeadRow(Some(born), fields, tags, c, u), {x, y})
    requires tag in tags && kept in tags && kept != tag && other !in tags
    requires x.change == LabelRemove(tag) && y.change == LabelAdd(other) && x.stamp.k1.At? && u < x.stamp.k1.t
    ensures var row := BeadRow(Some(born), fields, tags, c, u);
      var a, b := [Load({x, y}, u + 1.0)], [Load({y}, late), Load({x, y}, late + 1.0)];
      && Splits(m, row, {x, y}, a) && Splits(m, row, {x, y}, b)
      && ValueAt(AfterLoads(m, row, a).view, Label(tag)) == Has(false)
      && ValueAt(AfterLoads(m, row, b).view, Label(tag)) == Has(true)
  {
    hide WellFormed, ModeOf, AfterLoads, DeciderOf, Splits, Identified, MintsApart, Unexplained, ReadAt, Le;
    var row, es := BeadRow(Some(born), fields, tags, c, u), {x, y};
    FreshMode(m, Some(born), fields, tags, c, u);
    assert Unexplained(m, row, Label(kept)) && !Touched(es, Label(kept));
    OnlyTouching(x, y, Label(tag));
    LaterThanNative(m, row, x, tag);
    NothingRead(m, row, other);
    assert Wins(m, row, x, Label(tag)) && Wins(m, row, y, Label(other));
    late := NativeOrderMatters(m, row, es, Label(tag), y);
  }

  lemma OnlyTouching(x: Event, y: Event, f: Facet)
    requires Touches(x.change, f) && !Touches(y.change, f)
    ensures Touched({x, y}, f) && DeciderOf({x, y}, f) == x
  {
    hide Le, Touches;
    assert x in {x, y};
  }

  lemma LaterThanNative(m: Minter, row: Row, x: Event, tag: string)
    requires ModeOf(m, row) == Mixed && Own(row, Label(tag)).None? && x.stamp.k1.At? && row.updatedAt < x.stamp.k1.t
    ensures Wins(m, row, x, Label(tag))
  {
    hide ModeOf;
    WinsOverBoth(m, row, x, Label(tag));
  }

  lemma NothingRead(m: Minter, row: Row, tag: string)
    requires ModeOf(m, row) == Mixed && Label(tag) !in row.document && tag !in row.view.labels
    ensures ReadAt(m, row, Label(tag)).None?
  {
    hide ModeOf;
  }

  // ----- a load that changes how the row is read -----

  /** The bead with a stored event that set its notes. */
  function Noted(row: Row, a: Event, note: string): Row {
    row.(view := row.view.(fields := row.view.fields[NOTES := Text(note)]), document := row.document[Field(NOTES) := a])
  }

  /** A bead with one label entered directly in bd, and notes from before the creation. */
  ghost predicate Tagged(m: Minter, row: Row, born: Event, tag: string, a: Event, x: string, r: Event, b: Event, y: string) {
    && born.change.Create? && Fresh(Some(born), born.change.fields)
    && row == Noted(BeadRow(Some(born), born.change.fields, {tag}, row.createdAt, row.updatedAt), a, x)
    && a.change == SetField(NOTES, Some(Text(x))) && x != "" && b.change == SetField(NOTES, Some(Text(y))) && y != ""
    && r.change == LabelRemove(tag) && r.stamp.k1.At? && row.updatedAt + 2.0 < r.stamp.k1.t
    && !Le(b.stamp, a.stamp) && Earlier(b.stamp.k1, At(row.createdAt)) && Apart(m, row, {r, b})
  }

  /** The label is all that the stored events do not explain. */
  ghost predicate OnlyTag(m: Minter, row: Row, tag: string) {
    forall f :: f != Label(tag) ==> !Unexplained(m, row, f)
  }

  /** The load takes nothing but the label. */
  ghost predicate TakesTag(m: Minter, row: Row, batch: set<Event>, tag: string, r: Event) {
    && Taken(m, row, batch, Label(tag)) && DeciderOf(batch, Label(tag)) == r
    && forall f :: f != Label(tag) ==> !Taken(m, row, batch, f)
  }

  /** The row is read with a minted create, but not once the label is gone. */
  ghost predicate Turning(m: Minter, row: Row, tag: string, r: Event, a: Event, b: Event) {
    && WellFormed(row) && ModeOf(m, row) == Mixed && Own(row, Label(tag)).None? && OnlyTag(m, row, tag)
    && Own(row, Field(NOTES)) == Some(a) && ValueAt(row.view, Field(NOTES)) != FieldIs(None)
    && Born(row).Some? && !Touches(Born(row).value.change, Field(NOTES))
    && r.change == LabelRemove(tag) && r.stamp.k1.At? && row.updatedAt < r.stamp.k1.t
    && b.change.SetField? && b.change.at == NOTES && !Blank(b.change)
    && !Le(b.stamp, a.stamp) && Earlier(b.stamp.k1, At(row.createdAt))
  }

  lemma TaggedMode(m: Minter, row: Row, born: Event, tag: string, a: Event, x: string, r: Event, b: Event, y: string)
    requires Tagged(m, row, born, tag, a, x, r, b, y)
    ensures WellFormed(row) && ModeOf(m, row) == Mixed
  {
    hide Le, Minted, Explains, Apart;
    NotExplained(m, row, Stored, Label(tag));
    forall f ensures Tells(ReadIn(m, row, Mixed, f), f) == ValueAt(row.view, f) {
      MixedReads(m, row, f);
    }
    ExplainsAll(m, row, Mixed);
  }

  lemma TaggedOnly(m: Minter, row: Row, born: Event, tag: string, a: Event, x: string, r: Event, b: Event, y: string)
    requires Tagged(m, row, born, tag, a, x, r, b, y)
    ensures OnlyTag(m, row, tag)
  {
    hide Le, Apart;
  }

  lemma TaggedTurns(m: Minter, row: Row, born: Event, tag: string, a: Event, x: string, r: Event, b: Event, y: string)
    requires Tagged(m, row, born, tag, a, x, r, b, y)
    ensures Turning(m, row, tag, r, a, b) && Loadable(m, row, {r, b})
    ensures ValueAt(row.view, Field(NOTES)) == FieldIs(Some(Text(x))) && Says(b.change, Field(NOTES)) == FieldIs(Some(Text(y)))
  {
    hide Le, Identified, MintsApart, WellFormed, ModeOf, OnlyTag;
    assert "notes" in WRITABLE;
    TaggedMode(m, row, born, tag, a, x, r, b, y);
    TaggedOnly(m, row, born, tag, a, x, r, b, y);
  }

  /** Once the label is removed the stored events explain the row. */
  lemma ToStored(m: Minter, row: Row, batch: set<Event>, now: real, tag: string, r: Event)
    requires WellFormed(row) && Loadable(m, row, batch) && ModeOf(m, row) == Mixed && Born(row).Some?
    requires OnlyTag(m, row, tag) && TakesTag(m, row, batch, tag, r) && r.change == LabelRemove(tag)
    ensures ModeOf(m, AfterLoad(m, row, batch, now)) == Stored
  {
    hide WellFormed, ModeOf, AfterLoad, Le, Touches, Loadable, Taken, ReadIn, Explains, Own, Unexplained, DeciderOf;
    var row' := AfterLoad(m, row, batch, now);
    LoadKeepsWellFormed(m, row, batch, now);
    OwnAfter(m, row, batch, now, Exists);
    forall f ensures Tells(ReadIn(m, row', Stored, f), f) == ValueAt(row'.view, f) {
      LoadAt(m, row, batch, now, f);
      OwnAfter(m, row, batch, now, f);
      StoredReads(m, row, row', f, tag, r);
    }
    ExplainsAll(m, row', Stored);
    ModeIsStored(m, row');
  }

  lemma ModeIsStored(m: Minter, row: Row)
    requires Explains(m, row, Stored)
    ensures ModeOf(m, row) == Stored
  {}

  lemma StoredReads(m: Minter, row: Row, row': Row, f: Facet, tag: string, r: Event)
    requires WellFormed(row) && Born(row') == Born(row) && r.change == LabelRemove(tag)
    requires if f == Label(tag) then Own(row', f) == Some(r) && ValueAt(row'.view, f) == Has(false)
             else !Unexplained(m, row, f) && Own(row', f) == Own(row, f) && ValueAt(row'.view, f) == ValueAt(row.view, f)
    ensures Tells(ReadIn(m, row', Stored, f), f) == ValueAt(row'.view, f)
  {
    hide Own, Le;
  }

  /** What takes the label and leaves the notes. */
  lemma TagTaken(m: Minter, row: Row, batch: set<Event>, tag: string, r: Event, a: Event, b: Event)
    requires batch == {r} || batch == {r, b}
    requires Turning(m, row, tag, r, a, b) && Loadable(m, row, batch)
    ensures TakesTag(m, row, batch, tag, r) && !Taken(m, row, batch, Field(NOTES))
  {
    hide WellFormed, ModeOf, Le, Loadable, ReadAt, Own, OnlyTag;
    var f := Label(tag);
    LaterThanNative(m, row, r, tag);
    ShutByCreate(m, row, Field(NOTES), b);
    if batch == {r} {
      OnlyDecider(r, f);
    } else {
      OnlyTouching(r, b, f);
      assert batch == {b, r};
      OnlyTouching(b, r, Field(NOTES));
    }
    forall g | Taken(m, row, batch, g) ensures g == f {
      assert g == f || g == Field(NOTES);
    }
  }

  /** Removing the one label entered directly changes how the bead is read, and so which of the notes from before the
      creation shows: together with the removal the later note is shut out, after it, or loaded again, it shows. */
  lemma SwitchOrderMatters(m: Minter, row: Row, born: Event, tag: string, a: Event, x: string, r: Event, b: Event, y: string)
    requires Tagged(m, row, born, tag, a, x, r, b, y)
    ensures var u, f, es := row.updatedAt, Field(NOTES), {r, b};
      var both, apart, twice := [Load(es, u + 1.0)], [Load({r}, u + 1.0), Load({b}, u + 2.0)], [Load(es, u + 1.0), Load(es, u + 2.0)];
      && Splits(m, row, es, both) && ValueAt(AfterLoads(m, row, both).view, f) == FieldIs(Some(Text(x)))
      && Splits(m, row, es, apart) && ValueAt(AfterLoads(m, row, apart).view, f) == FieldIs(Some(Text(y)))
      && Splits(m, row, es, twice) && ValueAt(AfterLoads(m, row, twice).view, f) == FieldIs(Some(Text(y)))
  {
    hide WellFormed, AfterLoad, AfterLoads, Loadable, Splits, Turning, Tagged, ValueAt, Says, DeciderOf, Taken, TakesTag, ModeOf;
    var u, f, es := row.updatedAt, Field(NOTES), {r, b};
    TaggedTurns(m, row, born, tag, a, x, r, b, y);
    TurningReads(m, row, tag, r, a, b);
    TagTaken(m, row, es, tag, r, a, b);
    OneLoad(m, row, es, u + 1.0);
    LoadAt(m, row, es, u + 1.0, f);
    assert {r} + {b} == es && es + es == es;
    TwoLoads(m, row, {r}, {b}, u + 1.0, u + 2.0);
    TwoLoads(m, row, es, es, u + 1.0, u + 2.0);
    NowTaken(m, row, {r}, {b}, tag, r, a, b);
    NowTaken(m, row, es, es, tag, r, a, b);
  }

  lemma TurningReads(m: Minter, row: Row, tag: string, r: Event, a: Event, b: Event)
    requires Turning(m, row, tag, r, a, b)
    ensures WellFormed(row) && ModeOf(m, row) == Mixed
  {}

  lemma NowTaken(m: Minter, row: Row, first: set<Event>, next: set<Event>, tag: string, r: Event, a: Event, b: Event)
    requires (first == {r} && next == {b}) || (first == {r, b} && next == {r, b})
    requires Turning(m, row, tag, r, a, b) && Loadable(m, row, first)
    requires var mid := AfterLoad(m, row, first, row.updatedAt + 1.0); WellFormed(mid) && Loadable(m, mid, next)
    ensures var mid := AfterLoad(m, row, first, row.updatedAt + 1.0);
      ValueAt(AfterLoad(m, mid, next, row.updatedAt + 2.0).view, Field(NOTES)) == Says(b.change, Field(NOTES))
  {
    hide WellFormed, ModeOf, AfterLoad, Le, Loadable, DeciderOf, Own, OnlyTag;
    var f, u := Field(NOTES), row.updatedAt;
    var mid := AfterLoad(m, row, first, u + 1.0);
    TagTaken(m, row, first, tag, r, a, b);
    ToStored(m, row, first, u + 1.0, tag, r);
    OwnAfter(m, row, first, u + 1.0, f);
    OwnAfter(m, row, first, u + 1.0, Exists);
    WinsOverBoth(m, mid, b, f);
    if next == {b} {
      OnlyDecider(b, f);
    } else {
      assert next == {b, r};
      OnlyTouching(b, r, f);
    }
    LoadAt(m, mid, next, u + 2.0, f);
  }
}
