/** Reading a bd row back as events: the stored events that agree with the row, with a create and other
    events minted for what they do not explain. */
module BeadReader {
  import opened Wrappers
  import opened BeadLog
  import opened BeadStore

  /** What bd shows, the loader's document of stored events by facet (the create under existence), bd's own
      times of the bead, of its phase and of its edges, and when the row was last written. */
  datatype Row = Row(
    view: View,
    document: map<Facet, Event>,
    createdAt: real,
    phaseAt: Option<real>,
    edgesAt: map<Edge, real>,
    updatedAt: real
  )

  /** The id minted for a change read at some time of update. */
  type Minter = (Change, real) -> string

  const TYPE: FieldName := Column("type")

  // ----- facet by facet -----

  /** What a row shows of one facet. */
  datatype FacetValue = FieldIs(v: Option<Value>) | Has(b: bool) | Stands(status: string) | Unshown

  function ValueAt(v: View, f: Facet): FacetValue {
    match f
    case Field(n) => FieldIs(Look(v.fields, n))
    case Label(tag) => Has(tag in v.labels)
    case EdgeTo(e) => Has(e in v.edges)
    case Phase => Stands(v.status)
    case _ => Unshown
  }

  /** What a change says of a facet it touches. */
  function Says(c: Change, f: Facet): FacetValue {
    match f
    case Field(n) => FieldIs(FieldIn(c, n))
    case Label(_) => Has(c.LabelAdd?)
    case EdgeTo(_) => Has(c.EdgeAdd?)
    case Phase => Stands(StatusOf(PhaseIn(c)))
    case _ => Unshown
  }

  function Untouched(f: Facet): FacetValue {
    match f
    case Field(_) => FieldIs(None)
    case Label(_) => Has(false)
    case EdgeTo(_) => Has(false)
    case Phase => Stands("open")
    case _ => Unshown
  }

  function Tells(e: Option<Event>, f: Facet): FacetValue {
    if e.Some? then Says(e.value.change, f) else Untouched(f)
  }

  lemma SameView(a: View, b: View)
    requires forall f :: ValueAt(a, f) == ValueAt(b, f)
    ensures a == b
  {
    forall n ensures Look(a.fields, n) == Look(b.fields, n) {
      assert ValueAt(a, Field(n)) == ValueAt(b, Field(n));
    }
    SameFields(a.fields, b.fields);
    forall t ensures t in a.labels <==> t in b.labels {
      assert ValueAt(a, Label(t)) == ValueAt(b, Label(t));
    }
    forall e ensures e in a.edges <==> e in b.edges {
      assert ValueAt(a, EdgeTo(e)) == ValueAt(b, EdgeTo(e));
    }
    assert ValueAt(a, Phase) == ValueAt(b, Phase);
  }

  lemma FieldAt(d: map<Facet, Event>, n: FieldName)
    ensures Look(StateAt(d).fields, n) == if Field(n) in d then FieldIn(d[Field(n)].change, n) else None
  {
    var s := StateAt(d);
    assert Field(n) in d && FieldIn(d[Field(n)].change, n).Some? ==> n in s.fields && s.fields[n] == FieldIn(d[Field(n)].change, n).value;
  }

  /** A folded state shows what the decider of each facet says. */
  lemma StateShows(d: map<Facet, Event>, f: Facet)
    ensures ValueAt(ViewOf(StateAt(d)), f) == if f in d then Says(d[f].change, f) else Untouched(f)
  {
    var s := StateAt(d);
    match f
    case Field(n) => FieldAt(d, n);
    case Label(t) =>
      assert t in s.labels <==> Label(t) in d && d[Label(t)].change.LabelAdd?;
    case EdgeTo(e) =>
      assert e in s.edges <==> EdgeTo(e) in d && d[EdgeTo(e)].change.EdgeAdd?;
    case _ =>
  }

  // ----- what there is to read -----

  /** A stored event other than the create, while the row still shows what it says. */
  function Own(row: Row, f: Facet): Option<Event> {
    if f != Exists && f in row.document && Says(row.document[f].change, f) == ValueAt(row.view, f) then Some(row.document[f])
    else None
  }

  function Born(row: Row): Option<Event> {
    if Exists in row.document then Some(row.document[Exists]) else None
  }

  /** An event read with the row's update as its recording time and, unless bd knows when it happened, as its
      time. */
  function Minted(m: Minter, c: Change, dated: Option<real>, updatedAt: real): Event {
    Event(Stamp(At(if dated.Some? then dated.value else updatedAt), At(updatedAt), m(c, updatedAt)), c)
  }

  /** The create of the row as it is: every field it shows, at the time of creation. */
  function MintedCreate(m: Minter, row: Row): Event {
    Minted(m, Create(row.view.fields), Some(row.createdAt), row.updatedAt)
  }

  function DateOf(row: Row, f: Facet): Option<real> {
    match f
    case EdgeTo(e) => if e in row.edgesAt then Some(row.edgesAt[e]) else None
    case Phase => row.phaseAt
    case _ => None
  }

  /** What says that a label, an edge or a phase other than open is there. */
  function NativeChange(row: Row, f: Facet): Option<Change> {
    match f
    case Label(tag) => if tag in row.view.labels then Some(LabelAdd(tag)) else None
    case EdgeTo(e) => if e in row.view.edges then Some(EdgeAdd(e)) else None
    case Phase => if row.view.status != "open" then Some(SetPhase(row.view.status)) else None
    case _ => None
  }

  function Native(m: Minter, row: Row, f: Facet): Option<Event> {
    var c := NativeChange(row, f);
    if c.Some? then Some(Minted(m, c.value, DateOf(row, f), row.updatedAt)) else None
  }

  // ----- three readings -----

  /** Everything stored; stored events beside a minted create; or nothing but minted events. Unread when not
      even those agree with the row. */
  datatype Mode = Stored | Mixed | Snapshot | Unread

  function OwnIn(m: Minter, row: Row, mode: Mode, f: Facet): Option<Event> {
    match mode
    case Stored => Own(row, f)
    case Mixed => if Own(row, f).Some? then Own(row, f) else Native(m, row, f)
    case Snapshot => Native(m, row, f)
    case Unread => None
  }

  function CreateIn(m: Minter, row: Row, mode: Mode): Option<Event> {
    match mode
    case Stored => Born(row)
    case Mixed => Some(MintedCreate(m, row))
    case Snapshot => Some(MintedCreate(m, row))
    case Unread => None
  }

  function Later(a: Option<Event>, b: Option<Event>): Option<Event> {
    if a.None? then b
    else if b.None? then a
    else if Le(b.value.stamp, a.value.stamp) then a else b
  }

  function Touching(e: Option<Event>, f: Facet): Option<Event> {
    if e.Some? && Touches(e.value.change, f) then e else None
  }

  /** The later of the facet's own event and the create. */
  function ReadIn(m: Minter, row: Row, mode: Mode, f: Facet): Option<Event> {
    Later(OwnIn(m, row, mode, f), Touching(CreateIn(m, row, mode), f))
  }

  /** The facets a row has anything to say about. */
  function Scope(row: Row): set<Facet> {
    {Exists, Phase} + row.document.Keys
    + (if Exists in row.document && row.document[Exists].change.Create?
       then set n | n in row.document[Exists].change.fields :: Field(n) else {})
    + (set n | n in row.view.fields :: Field(n))
    + (set t | t in row.view.labels :: Label(t))
    + (set e | e in row.view.edges :: EdgeTo(e))
  }

  /** The reading folds to exactly what the row shows. */
  predicate Explains(m: Minter, row: Row, mode: Mode) {
    CreateIn(m, row, mode).Some? && forall f :: f in Scope(row) ==> Tells(ReadIn(m, row, mode, f), f) == ValueAt(row.view, f)
  }

  function ModeOf(m: Minter, row: Row): Mode {
    if Explains(m, row, Stored) then Stored
    else if Explains(m, row, Mixed) then Mixed
    else if Explains(m, row, Snapshot) then Snapshot
    else Unread
  }

  function ReadAt(m: Minter, row: Row, f: Facet): Option<Event> {
    ReadIn(m, row, ModeOf(m, row), f)
  }

  /** The deciding event of each facet, as read. */
  function Base(m: Minter, row: Row): map<Facet, Event> {
    map f | f in Scope(row) && ReadAt(m, row, f).Some? :: ReadAt(m, row, f).value
  }

  /** Everything the reader emits. */
  function Events(m: Minter, row: Row): set<Event> {
    var mode := ModeOf(m, row);
    (if CreateIn(m, row, mode).Some? then {CreateIn(m, row, mode).value} else {})
    + (set f | f in Scope(row) && OwnIn(m, row, mode, f).Some? :: OwnIn(m, row, mode, f).value)
  }

  /** The document is keyed by facet, bd keeps no empty text in a column, and every row has a type. */
  predicate WellFormed(row: Row) {
    && (forall f :: f in row.document ==>
          if f == Exists then row.document[f].change.Create?
          else Single(row.document[f].change) && FacetOf(row.document[f].change) == f)
    && (forall n :: n in row.view.fields ==> !(n.Column? && row.view.fields[n] == Text("")))
    && TYPE in row.view.fields && StatusOf(row.view.status) == row.view.status
  }

  // ----- the reading folds to the row -----

  lemma OutOfScope(m: Minter, row: Row, mode: Mode, f: Facet)
    requires WellFormed(row) && f !in Scope(row)
    ensures OwnIn(m, row, mode, f).None? && Touching(CreateIn(m, row, mode), f).None? && ValueAt(row.view, f) == Untouched(f)
  {}

  lemma InBase(m: Minter, row: Row, f: Facet)
    requires WellFormed(row)
    ensures f in Base(m, row) <==> ReadAt(m, row, f).Some?
    ensures f in Base(m, row) ==> Base(m, row)[f] == ReadAt(m, row, f).value
  {
    hide OwnIn, CreateIn, ModeOf, WellFormed;
    if f !in Scope(row) {
      OutOfScope(m, row, ModeOf(m, row), f);
    }
  }

  /** A reading that is not given up folds to exactly the row. */
  lemma ReaderExplains(m: Minter, row: Row, f: Facet)
    requires WellFormed(row) && ModeOf(m, row) != Unread
    ensures ValueAt(row.view, f) == Tells(ReadAt(m, row, f), f)
  {
    hide OwnIn, CreateIn, Tells, Scope, WellFormed, ValueAt;
    var mode := ModeOf(m, row);
    if f !in Scope(row) {
      OutOfScope(m, row, mode, f);
      TellsNothing(m, row, mode, f);
    }
  }

  lemma TellsNothing(m: Minter, row: Row, mode: Mode, f: Facet)
    requires OwnIn(m, row, mode, f).None? && Touching(CreateIn(m, row, mode), f).None?
    ensures Tells(ReadIn(m, row, mode, f), f) == Untouched(f)
  {}

  /** What is emitted for a facet, own or create. */
  lemma OwnTouches(m: Minter, row: Row, mode: Mode, f: Facet)
    requires WellFormed(row) && OwnIn(m, row, mode, f).Some?
    ensures var e := OwnIn(m, row, mode, f).value; Single(e.change) && forall g :: Touches(e.change, g) <==> g == f
  {}

  lemma CreateTouches(m: Minter, row: Row, mode: Mode)
    requires WellFormed(row) && CreateIn(m, row, mode).Some?
    ensures var c := CreateIn(m, row, mode).value; c.change.Create? && Touches(c.change, Exists)
  {}

  lemma EmittedIs(m: Minter, row: Row, e: Event)
    requires WellFormed(row)
    ensures var mode := ModeOf(m, row);
      e in Events(m, row) <==>
        CreateIn(m, row, mode) == Some(e) || exists f :: OwnIn(m, row, mode, f) == Some(e)
  {
    hide OwnIn, CreateIn, ModeOf, WellFormed, Scope;
    var mode := ModeOf(m, row);
    if f :| OwnIn(m, row, mode, f) == Some(e) {
      if f !in Scope(row) {
        OutOfScope(m, row, mode, f);
      }
    }
  }

  /** The events emitted that touch a facet are its own event and the create. */
  lemma EmittedTouching(m: Minter, row: Row, f: Facet, e: Event)
    requires WellFormed(row)
    ensures var mode := ModeOf(m, row);
      e in Events(m, row) && Touches(e.change, f) <==>
        OwnIn(m, row, mode, f) == Some(e) || Touching(CreateIn(m, row, mode), f) == Some(e)
  {
    hide OwnIn, CreateIn, ModeOf, WellFormed, Touches, Events;
    var mode := ModeOf(m, row);
    EmittedIs(m, row, e);
    if OwnIn(m, row, mode, f) == Some(e) {
      OwnTouches(m, row, mode, f);
    }
    if g :| OwnIn(m, row, mode, g) == Some(e) && Touches(e.change, f) {
      OwnTouches(m, row, mode, g);
    }
  }

  /** What is read decides every facet among what is emitted. */
  lemma BaseDecides(m: Minter, row: Row)
    requires WellFormed(row)
    ensures DecidersOf(Events(m, row), Base(m, row))
  {
    hide OwnIn, CreateIn, ModeOf, WellFormed, Touches, Events, Le, Base, Touching;
    var es, base, mode := Events(m, row), Base(m, row), ModeOf(m, row);
    forall f
      ensures f in base <==> Touched(es, f)
      ensures f in base ==> Decides(es, f, base[f])
    {
      InBase(m, row, f);
      forall e ensures e in es && Touches(e.change, f) <==>
        OwnIn(m, row, mode, f) == Some(e) || Touching(CreateIn(m, row, mode), f) == Some(e)
      {
        EmittedTouching(m, row, f, e);
      }
      LaterDecides(es, f, OwnIn(m, row, mode, f), Touching(CreateIn(m, row, mode), f));
    }
  }

  lemma LaterDecides(es: set<Event>, f: Facet, a: Option<Event>, b: Option<Event>)
    requires forall e :: e in es && Touches(e.change, f) <==> a == Some(e) || b == Some(e)
    ensures Later(a, b).Some? <==> Touched(es, f)
    ensures Later(a, b).Some? ==> Decides(es, f, Later(a, b).value)
  {
    hide Le, Touches;
    if a.Some? {
      assert a.value in es && Touches(a.value.change, f);
      LeTotal(a.value.stamp, a.value.stamp);
    }
    if b.Some? {
      assert b.value in es && Touches(b.value.change, f);
      LeTotal(b.value.stamp, b.value.stamp);
    }
    if a.Some? && b.Some? {
      LeTotal(a.value.stamp, b.value.stamp);
    }
  }

  // ----- exactly when a row can be read back -----

  /** Facets other than the phase agree with the row in every reading with a minted create. */
  lemma MintedReads(m: Minter, row: Row, mode: Mode, f: Facet)
    requires WellFormed(row) && (mode == Mixed || mode == Snapshot) && f != Phase
    ensures Tells(ReadIn(m, row, mode, f), f) == ValueAt(row.view, f)
  {
    hide Le;
  }

  /** The phase is open, or read as no earlier than the minted create. */
  predicate PhaseReads(m: Minter, row: Row, mode: Mode)
    requires mode == Mixed || mode == Snapshot
  {
    var own := OwnIn(m, row, mode, Phase);
    row.view.status == "open" || (own.Some? && Le(MintedCreate(m, row).stamp, own.value.stamp))
  }

  lemma MintedExplains(m: Minter, row: Row, mode: Mode)
    requires WellFormed(row) && (mode == Mixed || mode == Snapshot)
    ensures Explains(m, row, mode) <==> PhaseReads(m, row, mode)
  {
    hide Le, Scope, Minted;
    PhaseTold(m, row, mode);
    assert Phase in Scope(row) by { PhaseInScope(row); }
    forall f | f != Phase ensures Tells(ReadIn(m, row, mode, f), f) == ValueAt(row.view, f) {
      MintedReads(m, row, mode, f);
    }
  }

  lemma PhaseInScope(row: Row)
    ensures Phase in Scope(row)
  {}

  lemma PhaseTold(m: Minter, row: Row, mode: Mode)
    requires WellFormed(row) && (mode == Mixed || mode == Snapshot)
    ensures Tells(ReadIn(m, row, mode, Phase), Phase) == ValueAt(row.view, Phase) <==> PhaseReads(m, row, mode)
  {
    hide Le;
  }

  /** A row is read back as what it shows if and only if its stored events explain it, or its phase is open, or
      the phase's own event or what bd says of it is no earlier than the minted create. */
  lemma ReadsBackIff(m: Minter, row: Row)
    requires WellFormed(row)
    ensures ModeOf(m, row) != Unread <==> Explains(m, row, Stored) || PhaseReads(m, row, Mixed) || PhaseReads(m, row, Snapshot)
    ensures ModeOf(m, row) != Unread <==> ViewOf(StateAt(Base(m, row))) == row.view && Exists in Base(m, row)
  {
    hide Explains, PhaseReads, WellFormed, StateAt, Base, Scope;
    MintedExplains(m, row, Mixed);
    MintedExplains(m, row, Snapshot);
    InBase(m, row, Exists);
    ExistsRead(m, row);
    if ModeOf(m, row) != Unread {
      forall f ensures ValueAt(ViewOf(StateAt(Base(m, row))), f) == ValueAt(row.view, f) {
        StateShows(Base(m, row), f);
        InBase(m, row, f);
        ReaderExplains(m, row, f);
      }
      SameView(ViewOf(StateAt(Base(m, row))), row.view);
    }
  }

  lemma ExistsRead(m: Minter, row: Row)
    requires WellFormed(row)
    ensures ReadAt(m, row, Exists).Some? <==> ModeOf(m, row) != Unread
  {
    hide Le, Tells, Scope;
  }

  /** A bead created in bd and closed, by bd's own times, before its creation cannot be read back. */
  lemma ClosedTooEarly(m: Minter, row: Row)
    requires WellFormed(row) && row.document == map[] && row.view.status != "open"
    requires row.phaseAt.Some? && row.phaseAt.value < row.createdAt
    ensures ModeOf(m, row) == Unread
  {
    MintedExplains(m, row, Mixed);
    MintedExplains(m, row, Snapshot);
  }
}
