/** Any number of loads, split and ordered in any way: what each facet comes to on the way. */
module BeadConvergence {
  import opened Wrappers
  import opened BeadLog
  import opened BeadStore
  import opened BeadReader
  import opened BeadLoader

  datatype Load = Load(batch: set<Event>, now: real)

  ghost function AfterLoads(m: Minter, row: Row, loads: seq<Load>): Row {
    if loads == [] then row
    else
      var last := loads[|loads| - 1];
      AfterLoad(m, AfterLoads(m, row, loads[..|loads| - 1]), last.batch, last.now)
  }

  ghost function AllEvents(loads: seq<Load>): set<Event> {
    if loads == [] then {} else AllEvents(loads[..|loads| - 1]) + loads[|loads| - 1].batch
  }

  /** Each load writes at a later time than the one before. */
  ghost predicate Timely(from: real, loads: seq<Load>) {
    && (forall i :: 0 <= i < |loads| ==> from < loads[i].now)
    && (forall i, j :: 0 <= i < j < |loads| ==> loads[i].now < loads[j].now)
  }

  /** Loads of acceptable events with unambiguous ids. */
  ghost predicate Loads(m: Minter, row: Row, loads: seq<Load>) {
    WellFormed(row) && Timely(row.updatedAt, loads) && Loadable(m, row, AllEvents(loads))
  }

  // ----- the rows in between -----

  lemma LoadablePart(m: Minter, row: Row, batch: set<Event>, part: set<Event>)
    requires Loadable(m, row, batch) && part <= batch
    ensures Loadable(m, row, part)
  {
    hide Acceptable;
  }

  lemma DatesKept(m: Minter, row: Row, batch: set<Event>, now: real)
    ensures forall c :: MintDate(AfterLoad(m, row, batch, now), c) == MintDate(row, c)
  {
    hide ModeOf, Writes, Executed, PlanFor, Updated, Outcome;
  }

  /** A load brings nothing into the document but its batch. */
  lemma LoadableAfter(m: Minter, row: Row, batch: set<Event>, now: real, es: set<Event>)
    requires WellFormed(row) && batch <= es && Loadable(m, row, es)
    ensures Loadable(m, AfterLoad(m, row, batch, now), es)
  {
    hide WellFormed, Acceptable, AfterLoad, ModeOf;
    LoadablePart(m, row, es, batch);
    var row' := AfterLoad(m, row, batch, now);
    DatesKept(m, row, batch, now);
    if ModeOf(m, row) == Unread {
      UnreadStays(m, row, batch, now);
    } else {
      forall e | e in DocumentEvents(row') ensures e in DocumentEvents(row) + es {
        var f :| f in row'.document && row'.document[f] == e;
        DocumentAfter(m, row, batch, now, f);
      }
    }
  }

  lemma PrefixLoads(m: Minter, row: Row, loads: seq<Load>)
    requires Loads(m, row, loads) && loads != []
    ensures Loads(m, row, loads[..|loads| - 1])
  {
    hide WellFormed, Loadable;
    LoadablePart(m, row, AllEvents(loads), AllEvents(loads[..|loads| - 1]));
  }

  /** What holds after any number of loads. */
  ghost predicate Progressed(m: Minter, row: Row, loads: seq<Load>, all: set<Event>, row': Row) {
    && WellFormed(row') && Loadable(m, row', all) && SameTimes(row, row')
    && (row'.updatedAt == row.updatedAt || exists i :: 0 <= i < |loads| && row'.updatedAt <= loads[i].now)
  }

  lemma {:induction false} LoadsProgress(m: Minter, row: Row, loads: seq<Load>, all: set<Event>)
    requires Loads(m, row, loads) && AllEvents(loads) <= all && Loadable(m, row, all)
    ensures Progressed(m, row, loads, all, AfterLoads(m, row, loads))
    decreases |loads|
  {
    hide WellFormed, Loadable, AfterLoad;
    if loads != [] {
      var last, short := loads[|loads| - 1], loads[..|loads| - 1];
      PrefixLoads(m, row, loads);
      LoadsProgress(m, row, short, all);
      var mid := AfterLoads(m, row, short);
      LoadablePart(m, mid, all, last.batch);
      LoadKeepsWellFormed(m, mid, last.batch, last.now);
      LoadableAfter(m, mid, last.batch, last.now, all);
      TimesAfter(m, mid, last.batch, last.now);
      assert forall i :: 0 <= i < |short| ==> short[i] == loads[i];
    }
  }

  /** The last of several loads: everything the one before it leaves behind. */
  lemma LastLoad(m: Minter, row: Row, loads: seq<Load>) returns (short: seq<Load>, mid: Row, last: Load)
    requires Loads(m, row, loads) && loads != []
    ensures short == loads[..|loads| - 1] && last == loads[|loads| - 1] && mid == AfterLoads(m, row, short)
    ensures Loads(m, row, short) && AllEvents(loads) == AllEvents(short) + last.batch
    ensures AfterLoads(m, row, loads) == AfterLoad(m, mid, last.batch, last.now)
    ensures WellFormed(mid) && Loadable(m, mid, last.batch) && SameTimes(row, mid) && mid.updatedAt < last.now
  {
    hide WellFormed, Loadable, AfterLoad;
    short, last := loads[..|loads| - 1], loads[|loads| - 1];
    mid := AfterLoads(m, row, short);
    PrefixLoads(m, row, loads);
    LoadsProgress(m, row, short, AllEvents(loads));
    LoadablePart(m, mid, AllEvents(loads), last.batch);
  }

  // ----- stamps that move -----

  /** Beats a minted event whatever time it is read at. */
  predicate Undying(s: Stamp, dated: Option<real>) {
    if dated.None? then s.k1.Never?
    else Earlier(At(dated.value), s.k1) || (s.k1 == At(dated.value) && s.k2.Never?)
  }

  lemma UndyingWins(m: Minter, s: Stamp, c: Change, dated: Option<real>, u: real)
    requires Undying(s, dated)
    ensures !Le(s, Minted(m, c, dated, u).stamp)
  {}

  /** Any other event loses to a late enough reading, and to every later one. */
  lemma MortalLoses(s: Stamp, dated: Option<real>, u: real) returns (late: real)
    requires !Undying(s, dated)
    ensures u <= late && forall m: Minter, c, w :: late <= w ==> Le(s, Minted(m, c, dated, w).stamp)
  {
    var t := if s.k1.At? && dated.None? then s.k1.t else if s.k2.At? then s.k2.t else u;
    late := if u <= t then t + 1.0 else u;
  }

  /** A minted event moves forward with the time it is read at. */
  lemma MintedForward(m: Minter, a: Change, b: Change, dated: Option<real>, u: real, w: real)
    requires u < w || (u == w && a == b)
    ensures Le(Minted(m, a, dated, u).stamp, Minted(m, b, dated, w).stamp)
  {
    LeTotal(Minted(m, a, dated, u).stamp, Minted(m, a, dated, u).stamp);
  }

  // ----- the same mode throughout -----

  /** The stored events alone do not explain what the row shows of the facet. */
  predicate Unexplained(m: Minter, row: Row, f: Facet) {
    Tells(ReadIn(m, row, Stored, f), f) != ValueAt(row.view, f)
  }

  /** bd's own time of the phase is after the creation. */
  predicate NativeLater(row: Row) {
    if row.phaseAt.Some? then row.createdAt < row.phaseAt.value else row.createdAt < row.updatedAt
  }

  /** A phase other than open is read as later than the creation, and stays so. */
  predicate PhaseHeld(row: Row) {
    row.view.status != "open" ==>
      if Own(row, Phase).Some? then Undying(Own(row, Phase).value.stamp, Some(row.createdAt)) else NativeLater(row)
  }

  /** No event sets a phase other than open at exactly the creation, unless it is recorded for good. */
  ghost predicate PhasesClear(row: Row, es: set<Event>) {
    forall x :: x in es && Touches(x.change, Phase) && Says(x.change, Phase) != Stands("open") ==>
      Undying(x.stamp, Some(row.createdAt)) || Earlier(x.stamp.k1, At(row.createdAt))
  }

  /** Loading these events, however split, never changes how the row is read. A row explained by its stored events
      stays so unless an event blanks its type or a field of its create. A row read with a minted create stays so
      when it has no stored create, or something disagrees with it that the events do not take. */
  ghost predicate Steady(m: Minter, row: Row, es: set<Event>) {
    match ModeOf(m, row)
    case Stored =>
      forall e :: e in es && Blank(e.change) ==> e.change.at != TYPE && !Touches(row.document[Exists].change, Field(e.change.at))
    case Mixed =>
      && PhaseHeld(row) && PhasesClear(row, es)
      && (Born(row).None? || exists f :: Unexplained(m, row, f) && !Taken(m, row, es, f))
    case Snapshot => false
    case Unread => true
  }

  /** A facet holds what it held, and is read no earlier. */
  ghost predicate SameHold(m: Minter, row: Row, mid: Row, f: Facet) {
    && Own(mid, f) == Own(row, f) && ValueAt(mid.view, f) == ValueAt(row.view, f)
    && (ReadAt(m, row, f).Some? ==> ReadAt(m, mid, f).Some? && Le(ReadAt(m, row, f).value.stamp, ReadAt(m, mid, f).value.stamp))
  }

  /** On the way from a row through loads of these events. */
  ghost predicate Along(m: Minter, row: Row, es: set<Event>, mid: Row) {
    && WellFormed(mid) && ModeOf(m, mid) == ModeOf(m, row) && SameTimes(row, mid)
    && (ModeOf(m, row) == Mixed ==> PhaseHeld(mid))
    && (forall f :: !Taken(m, row, es, f) ==> SameHold(m, row, mid, f))
  }

  lemma ReadGrows(m: Minter, a: Row, b: Row, f: Facet)
    requires WellFormed(a) && WellFormed(b) && ModeOf(m, a) == ModeOf(m, b) && SameTimes(a, b)
    requires Own(b, f) == Own(a, f) && ValueAt(b.view, f) == ValueAt(a.view, f)
    ensures ReadAt(m, a, f).Some? <==> ReadAt(m, b, f).Some?
    ensures ReadAt(m, a, f).Some? ==> Le(ReadAt(m, a, f).value.stamp, ReadAt(m, b, f).value.stamp)
  {
    hide ModeOf, Le, WellFormed, Own, Minted;
    var mode := ModeOf(m, a);
    OwnGrows(m, a, b, mode, f);
    CreateGrows(m, a, b, mode, f);
    LaterGrows(OwnIn(m, a, mode, f), Touching(CreateIn(m, a, mode), f), OwnIn(m, b, mode, f), Touching(CreateIn(m, b, mode), f));
  }

  lemma OwnGrows(m: Minter, a: Row, b: Row, mode: Mode, f: Facet)
    requires SameTimes(a, b) && Own(b, f) == Own(a, f) && ValueAt(b.view, f) == ValueAt(a.view, f)
    ensures OwnIn(m, a, mode, f).Some? <==> OwnIn(m, b, mode, f).Some?
    ensures OwnIn(m, a, mode, f).Some? ==> Le(OwnIn(m, a, mode, f).value.stamp, OwnIn(m, b, mode, f).value.stamp)
  {
    hide Le, Own, Minted;
    if Own(a, f).Some? {
      LeTotal(Own(a, f).value.stamp, Own(a, f).value.stamp);
    }
    assert NativeChange(a, f) == NativeChange(b, f);
    if NativeChange(a, f).Some? {
      MintedForward(m, NativeChange(a, f).value, NativeChange(b, f).value, DateOf(a, f), a.updatedAt, b.updatedAt);
    }
  }

  lemma CreateGrows(m: Minter, a: Row, b: Row, mode: Mode, f: Facet)
    requires WellFormed(a) && WellFormed(b) && SameTimes(a, b) && ValueAt(b.view, f) == ValueAt(a.view, f)
    ensures var x, y := Touching(CreateIn(m, a, mode), f), Touching(CreateIn(m, b, mode), f);
      (x.Some? <==> y.Some?) && (x.Some? ==> Le(x.value.stamp, y.value.stamp))
  {
    hide Le, Own, Minted;
    var x, y := MintedCreate(m, a), MintedCreate(m, b);
    MintedForward(m, Create(a.view.fields), Create(b.view.fields), Some(a.createdAt), a.updatedAt, b.updatedAt);
    MintedChange(m, a);
    MintedChange(m, b);
    if Born(a).Some? {
      LeTotal(Born(a).value.stamp, Born(a).value.stamp);
    }
  }

  lemma MintedChange(m: Minter, row: Row)
    ensures MintedCreate(m, row).change == Create(row.view.fields)
  {}

  lemma LaterGrows(a: Option<Event>, b: Option<Event>, a': Option<Event>, b': Option<Event>)
    requires (a.Some? <==> a'.Some?) && (a.Some? ==> Le(a.value.stamp, a'.value.stamp))
    requires (b.Some? <==> b'.Some?) && (b.Some? ==> Le(b.value.stamp, b'.value.stamp))
    ensures Later(a, b).Some? <==> Later(a', b').Some?
    ensures Later(a, b).Some? ==> Le(Later(a, b).value.stamp, Later(a', b').value.stamp)
  {
    hide Le;
    if a.Some? && b.Some? {
      LeTotal(a'.value.stamp, b'.value.stamp);
      if Le(b.value.stamp, a.value.stamp) && !Le(b'.value.stamp, a'.value.stamp) {
        LeTransitive(a.value.stamp, a'.value.stamp, b'.value.stamp);
      }
      if !Le(b.value.stamp, a.value.stamp) && Le(b'.value.stamp, a'.value.stamp) {
        LeTransitive(b.value.stamp, b'.value.stamp, a'.value.stamp);
      }
    }
  }

  // ----- how the row is read does not change -----

  lemma ExplainsAll(m: Minter, row: Row, mode: Mode)
    requires WellFormed(row) && CreateIn(m, row, mode).Some?
    requires forall f :: Tells(ReadIn(m, row, mode, f), f) == ValueAt(row.view, f)
    ensures Explains(m, row, mode)
  {
    hide OwnIn, CreateIn, Scope;
  }

  lemma NotExplained(m: Minter, row: Row, mode: Mode, f: Facet)
    requires WellFormed(row) && Tells(ReadIn(m, row, mode, f), f) != ValueAt(row.view, f)
    ensures !Explains(m, row, mode)
  {
    hide CreateIn, Scope, OwnIn, WellFormed, ValueAt, Tells;
    if f !in Scope(row) {
      OutOfScope(m, row, mode, f);
      TellsNothing(m, row, mode, f);
    }
  }

  /** The create beside it never comes later than what is read. */
  lemma CreateBeaten(m: Minter, row: Row, f: Facet)
    requires Touching(CreateIn(m, row, ModeOf(m, row)), f).Some?
    ensures ReadAt(m, row, f).Some?
    ensures Le(Touching(CreateIn(m, row, ModeOf(m, row)), f).value.stamp, ReadAt(m, row, f).value.stamp)
  {
    hide ModeOf, Le, OwnIn, CreateIn;
    var c := Touching(CreateIn(m, row, ModeOf(m, row)), f).value;
    LeTotal(c.stamp, c.stamp);
  }

  lemma LaterPicks(a: Event, b: Option<Event>)
    requires b.Some? ==> Le(b.value.stamp, a.stamp)
    ensures Later(Some(a), b) == Some(a)
  {}

  /** What is read of a facet after a load whose row is explained by its stored events. */
  lemma StoredReadsAfter(m: Minter, row: Row, batch: set<Event>, now: real, f: Facet)
    requires WellFormed(row) && Loadable(m, row, batch) && ModeOf(m, row) == Stored
    requires forall e :: e in batch && Blank(e.change) ==> e.change.at != TYPE && !Touches(row.document[Exists].change, Field(e.change.at))
    ensures var row' := AfterLoad(m, row, batch, now); Tells(ReadIn(m, row', Stored, f), f) == ValueAt(row'.view, f)
  {
    hide AfterLoad, Le, Touches, Loadable, WellFormed, DeciderOf, ModeOf;
    var row' := AfterLoad(m, row, batch, now);
    LoadAt(m, row, batch, now, f);
    OwnAfter(m, row, batch, now, f);
    ReaderExplains(m, row, f);
    if Taken(m, row, batch, f) {
      TakenOf(m, row, batch, f);
      var t := DeciderOf(batch, f);
      BlankIsField(t.change, f);
      if Touching(Born(row), f).Some? {
        CreateBeaten(m, row, f);
        LeTotal(t.stamp, ReadAt(m, row, f).value.stamp);
        LeTransitive(Born(row).value.stamp, ReadAt(m, row, f).value.stamp, t.stamp);
      }
      if !Blank(t.change) {
        LaterPicks(t, Touching(Born(row'), f));
      }
    }
  }

  lemma TakenOf(m: Minter, row: Row, batch: set<Event>, f: Facet)
    requires Loadable(m, row, batch) && Taken(m, row, batch, f)
    ensures Touched(batch, f) && Touches(DeciderOf(batch, f).change, f)
    ensures DeciderOf(batch, f) in batch && Acceptable(DeciderOf(batch, f).change) && Wins(m, row, DeciderOf(batch, f), f)
  {
    hide Identified, MintsApart;
    TakenFacts(m, row, batch, f);
  }

  lemma StoredStays(m: Minter, row: Row, batch: set<Event>, now: real)
    requires WellFormed(row) && Loadable(m, row, batch) && ModeOf(m, row) == Stored && row.updatedAt < now
    requires forall e :: e in batch && Blank(e.change) ==> e.change.at != TYPE && !Touches(row.document[Exists].change, Field(e.change.at))
    ensures ModeOf(m, AfterLoad(m, row, batch, now)) == Stored
  {
    hide AfterLoad, Loadable, WellFormed, ReadIn, ValueAt, Tells, Explains;
    var row' := AfterLoad(m, row, batch, now);
    LoadKeepsWellFormed(m, row, batch, now);
    TimesAfter(m, row, batch, now);
    forall f ensures Tells(ReadIn(m, row', Stored, f), f) == ValueAt(row'.view, f) {
      StoredReadsAfter(m, row, batch, now, f);
    }
    StoredHasCreate(m, row);
    ExplainsAll(m, row', Stored);
  }

  lemma StoredHasCreate(m: Minter, row: Row)
    requires ModeOf(m, row) == Stored
    ensures Born(row).Some? && Exists in row.document
  {
    hide ReadIn, Scope;
  }

  /** A minted create agrees with the row when the phase is open or read as later. */
  lemma MixedReads(m: Minter, row: Row, f: Facet)
    requires WellFormed(row) && PhaseHeld(row)
    ensures Tells(ReadIn(m, row, Mixed, f), f) == ValueAt(row.view, f)
  {
    hide Le, Minted;
    MintedChange(m, row);
    if f == Phase && row.view.status != "open" {
      PhaseLater(m, row);
      MintedSays(m, row, f);
    } else if Native(m, row, f).Some? {
      MintedSays(m, row, f);
    }
  }

  lemma MintedSays(m: Minter, row: Row, f: Facet)
    ensures Native(m, row, f).Some? ==> NativeChange(row, f).Some? && Native(m, row, f).value.change == NativeChange(row, f).value
  {}

  /** The phase is read no earlier than the minted create. */
  lemma PhaseLater(m: Minter, row: Row)
    requires PhaseHeld(row) && row.view.status != "open"
    ensures OwnIn(m, row, Mixed, Phase).Some?
    ensures Le(MintedCreate(m, row).stamp, OwnIn(m, row, Mixed, Phase).value.stamp)
  {
    if Own(row, Phase).Some? {
      UndyingWins(m, Own(row, Phase).value.stamp, Create(row.view.fields), Some(row.createdAt), row.updatedAt);
      LeTotal(MintedCreate(m, row).stamp, Own(row, Phase).value.stamp);
    }
  }

  lemma PhaseHeldAfter(m: Minter, row: Row, batch: set<Event>, now: real)
    requires WellFormed(row) && Loadable(m, row, batch) && ModeOf(m, row) == Mixed && row.updatedAt < now
    requires PhaseHeld(row) && PhasesClear(row, batch)
    ensures PhaseHeld(AfterLoad(m, row, batch, now))
  {
    hide AfterLoad, Le, Touches, Loadable, WellFormed, DeciderOf, ModeOf, Undying;
    var row' := AfterLoad(m, row, batch, now);
    LoadAt(m, row, batch, now, Phase);
    OwnAfter(m, row, batch, now, Phase);
    TimesAfter(m, row, batch, now);
    if Taken(m, row, batch, Phase) {
      TakenOf(m, row, batch, Phase);
      var t := DeciderOf(batch, Phase);
      BlankIsField(t.change, Phase);
      TouchesPhase(m, row);
      CreateBeaten(m, row, Phase);
      if Says(t.change, Phase) != Stands("open") && Earlier(t.stamp.k1, At(row.createdAt)) {
        EarlyLoses(m, row, t.stamp);
        LeTransitive(t.stamp, MintedCreate(m, row).stamp, ReadAt(m, row, Phase).value.stamp);
      }
    }
  }

  lemma TouchesPhase(m: Minter, row: Row)
    requires ModeOf(m, row) == Mixed
    ensures Touching(CreateIn(m, row, ModeOf(m, row)), Phase) == Some(MintedCreate(m, row))
  {}

  lemma EarlyLoses(m: Minter, row: Row, s: Stamp)
    requires Earlier(s.k1, At(row.createdAt))
    ensures Le(s, MintedCreate(m, row).stamp)
  {}

  /** With a minted create the row is read so again, as long as the stored create stays at odds with something. */
  lemma MixedStays(m: Minter, row: Row, batch: set<Event>, now: real)
    requires WellFormed(row) && Loadable(m, row, batch) && ModeOf(m, row) == Mixed && row.updatedAt < now
    requires PhaseHeld(row) && PhasesClear(row, batch)
    requires Born(row).None? || exists f :: Unexplained(m, row, f) && !Taken(m, row, batch, f)
    ensures ModeOf(m, AfterLoad(m, row, batch, now)) == Mixed && PhaseHeld(AfterLoad(m, row, batch, now))
  {
    hide AfterLoad, Loadable, WellFormed, ReadIn, ValueAt, Tells, Taken, PhaseHeld, PhasesClear, Explains;
    var row' := AfterLoad(m, row, batch, now);
    LoadKeepsWellFormed(m, row, batch, now);
    PhaseHeldAfter(m, row, batch, now);
    OwnAfter(m, row, batch, now, Exists);
    forall f ensures Tells(ReadIn(m, row', Mixed, f), f) == ValueAt(row'.view, f) {
      MixedReads(m, row', f);
    }
    ExplainsAll(m, row', Mixed);
    if Born(row).None? {
      NoCreate(m, row');
    } else {
      var f :| Unexplained(m, row, f) && !Taken(m, row, batch, f);
      LoadAt(m, row, batch, now, f);
      OwnAfter(m, row, batch, now, f);
      StillUnexplained(m, row, row', f);
      NotExplained(m, row', Stored, f);
    }
  }

  lemma NoCreate(m: Minter, row: Row)
    requires Born(row).None?
    ensures !Explains(m, row, Stored)
  {}

  lemma StillUnexplained(m: Minter, row: Row, mid: Row, f: Facet)
    requires Unexplained(m, row, f) && Born(mid) == Born(row) && Own(mid, f) == Own(row, f) && ValueAt(mid.view, f) == ValueAt(row.view, f)
    ensures Unexplained(m, mid, f)
  {
    hide Own, Le;
  }

  // ----- facets nothing takes -----

  lemma NotTakenEarlier(m: Minter, row: Row, some: set<Event>, all: set<Event>, f: Facet)
    requires some <= all && !Taken(m, row, all, f)
    ensures !Taken(m, row, some, f)
  {
    hide Le, Touches, ReadAt;
    if Touched(some, f) {
      var e := DeciderOf(some, f);
      TouchedBy(all, f, e);
      DeciderBeats(all, f, DeciderOf(all, f), e);
      LeTransitive(e.stamp, DeciderOf(all, f).stamp, ReadAt(m, row, f).value.stamp);
    }
  }

  lemma NotTakenLater(m: Minter, row: Row, mid: Row, some: set<Event>, all: set<Event>, f: Facet)
    requires some <= all && !Taken(m, row, all, f) && SameHold(m, row, mid, f)
    ensures !Taken(m, mid, some, f)
  {
    hide Le, Touches, ReadAt, Own, ValueAt;
    NotTakenEarlier(m, row, some, all, f);
    if Touched(some, f) {
      LeTransitive(DeciderOf(some, f).stamp, ReadAt(m, row, f).value.stamp, ReadAt(m, mid, f).value.stamp);
    }
  }

  lemma AlongStart(m: Minter, row: Row, es: set<Event>)
    requires WellFormed(row) && (ModeOf(m, row) == Mixed ==> PhaseHeld(row))
    ensures Along(m, row, es, row)
  {
    hide WellFormed, ModeOf, Le, PhaseHeld, ReadAt, Own, Taken;
    forall f ensures SameHold(m, row, row, f) {
      if ReadAt(m, row, f).Some? {
        LeTotal(ReadAt(m, row, f).value.stamp, ReadAt(m, row, f).value.stamp);
      }
    }
  }

  /** A load of some of the events goes on along the way. */
  lemma AlongStep(m: Minter, row: Row, es: set<Event>, mid: Row, batch: set<Event>, now: real)
    requires Steady(m, row, es) && ModeOf(m, row) != Unread && Along(m, row, es, mid)
    requires batch <= es && Loadable(m, mid, batch) && mid.updatedAt < now
    ensures Along(m, row, es, AfterLoad(m, mid, batch, now))
  {
    hide WellFormed, ModeOf, Le, PhaseHeld, ReadAt, Own, Taken, Loadable, AfterLoad, ValueAt, PhasesClear, Unexplained, Blank;
    var row' := AfterLoad(m, mid, batch, now);
    LoadKeepsWellFormed(m, mid, batch, now);
    TimesAfter(m, mid, batch, now);
    if ModeOf(m, row) == Stored {
      StoredHasCreate(m, row);
      SameBorn(row, mid);
      StoredStays(m, mid, batch, now);
    } else {
      ClearPart(row, mid, batch, es);
      if Born(row).Some? {
        var f :| Unexplained(m, row, f) && !Taken(m, row, es, f);
        StillUnexplained(m, row, mid, f);
        NotTakenLater(m, row, mid, batch, es, f);
      }
      MixedStays(m, mid, batch, now);
    }
    forall f | !Taken(m, row, es, f) ensures SameHold(m, row, row', f) {
      NotTakenLater(m, row, mid, batch, es, f);
      LoadAt(m, mid, batch, now, f);
      OwnAfter(m, mid, batch, now, f);
      ReadGrows(m, mid, row', f);
      if ReadAt(m, row, f).Some? {
        LeTransitive(ReadAt(m, row, f).value.stamp, ReadAt(m, mid, f).value.stamp, ReadAt(m, row', f).value.stamp);
      }
    }
  }

  lemma SameBorn(row: Row, mid: Row)
    requires Born(mid) == Born(row) && Exists in row.document
    ensures Exists in mid.document && mid.document[Exists] == row.document[Exists]
  {}

  lemma ClearPart(row: Row, mid: Row, some: set<Event>, all: set<Event>)
    requires PhasesClear(row, all) && some <= all && mid.createdAt == row.createdAt
    ensures PhasesClear(mid, some)
  {}

  /** However the events are split, every row on the way is read as the first was, and a facet that the greatest
      of all the events does not take keeps what it holds. */
  lemma {:induction false} AlongLoads(m: Minter, row: Row, es: set<Event>, loads: seq<Load>)
    requires Loads(m, row, loads) && AllEvents(loads) <= es && Steady(m, row, es) && ModeOf(m, row) != Unread
    ensures Along(m, row, es, AfterLoads(m, row, loads))
    decreases |loads|
  {
    hide WellFormed, ModeOf, Loadable, AfterLoad, Along, Steady;
    if loads == [] {
      SteadyPhase(m, row, es);
      AlongStart(m, row, es);
    } else {
      var short, mid, last := LastLoad(m, row, loads);
      AlongLoads(m, row, es, short);
      AlongStep(m, row, es, mid, last.batch, last.now);
    }
  }

  lemma SteadyPhase(m: Minter, row: Row, es: set<Event>)
    requires Steady(m, row, es)
    ensures ModeOf(m, row) == Mixed ==> PhaseHeld(row)
    ensures ModeOf(m, row) != Snapshot
  {
    hide Taken, ModeOf;
  }

  // ----- the greatest event -----

  /** The greatest event of the whole set is that of any part it is in. */
  lemma GreatestOfPart(es: set<Event>, part: set<Event>, f: Facet)
    requires part <= es && Identified(es) && Touched(es, f) && DeciderOf(es, f) in part
    ensures Touched(part, f) && DeciderOf(part, f) == DeciderOf(es, f)
  {
    hide Le, Touches;
    var t := DeciderOf(es, f);
    DeciderTouches(es, f, t);
    TouchedBy(part, f, t);
    SubsetDecides(part, es, f, t);
    DeciderUnique(part, f, t, DeciderOf(part, f));
  }

  /** A part without the greatest event has only lesser ones. */
  lemma LesserOfPart(es: set<Event>, part: set<Event>, f: Facet)
    requires part <= es && Identified(es) && Touched(es, f) && Touched(part, f)
    ensures Le(DeciderOf(part, f).stamp, DeciderOf(es, f).stamp)
    ensures DeciderOf(es, f) !in part ==> !Le(DeciderOf(es, f).stamp, DeciderOf(part, f).stamp)
  {
    hide Le, Touches;
    var t, e := DeciderOf(es, f), DeciderOf(part, f);
    DeciderTouches(part, f, e);
    DeciderTouches(es, f, t);
    DeciderBeats(es, f, t, e);
    if Le(t.stamp, e.stamp) {
      LeAntisymmetric(t.stamp, e.stamp);
    }
  }

  /** An event beats what is read when it beats the facet's own event and the create. */
  lemma WinsOverBoth(m: Minter, row: Row, t: Event, f: Facet)
    ensures var own, create := OwnIn(m, row, ModeOf(m, row), f), Touching(CreateIn(m, row, ModeOf(m, row)), f);
      Wins(m, row, t, f) <==>
        (own.Some? ==> !Le(t.stamp, own.value.stamp)) && (create.Some? ==> !Le(t.stamp, create.value.stamp))
  {
    hide ModeOf, Le, OwnIn, CreateIn;
    var own, create := OwnIn(m, row, ModeOf(m, row), f), Touching(CreateIn(m, row, ModeOf(m, row)), f);
    if own.Some? && create.Some? {
      LeTotal(own.value.stamp, create.value.stamp);
      if Le(t.stamp, own.value.stamp) && Le(own.value.stamp, create.value.stamp) {
        LeTransitive(t.stamp, own.value.stamp, create.value.stamp);
      }
      if Le(t.stamp, create.value.stamp) && Le(create.value.stamp, own.value.stamp) {
        LeTransitive(t.stamp, create.value.stamp, own.value.stamp);
      }
    }
  }

  /** The row shows it, and no stored event says so. */
  predicate IsNative(row: Row, f: Facet) {
    Own(row, f).None? && NativeChange(row, f).Some?
  }

  /** The event, loaded alone, makes the loader write. */
  predicate Stirs(m: Minter, row: Row, y: Event) {
    && Single(y.change) && Wins(m, row, y, FacetOf(y.change))
    && !(Blank(y.change) && FacetOf(y.change) == Field(TYPE) && FacetOf(y.change) in row.document
         && row.document[FacetOf(y.change)] == y)
  }

  /** Only events of this facet make the loader write. */
  ghost predicate OthersStill(m: Minter, row: Row, es: set<Event>, f: Facet) {
    forall y :: y in es && Stirs(m, row, y) ==> Touches(y.change, f)
  }

  /** What is minted for the facet cannot outlive the event. */
  ghost predicate Timeless(m: Minter, row: Row, es: set<Event>, f: Facet, t: Event) {
    ModeOf(m, row) == Mixed ==>
      && (f.Field? || f == Phase ==> Undying(t.stamp, Some(row.createdAt)))
      && (IsNative(row, f) ==> Undying(t.stamp, DateOf(row, f)) || OthersStill(m, row, es, f))
  }

  /** While waiting for its greatest event a facet stays open to it. */
  ghost predicate OpenTo(m: Minter, row: Row, mid: Row, f: Facet, t: Event) {
    && Wins(m, mid, t, f)
    && (ModeOf(m, row) == Mixed && IsNative(mid, f) ==> IsNative(row, f) && (Undying(t.stamp, DateOf(row, f)) || mid == row))
  }

  /** The event is the facet's own and what is read of it. */
  ghost predicate Holds(m: Minter, row: Row, f: Facet, e: Event) {
    Own(row, f) == Some(e) && ReadAt(m, row, f) == Some(e)
  }

  lemma OpenAtFirst(m: Minter, row: Row, es: set<Event>, f: Facet)
    requires Taken(m, row, es, f)
    ensures OpenTo(m, row, row, f, DeciderOf(es, f))
  {
    hide Le, Touches, ReadAt, ModeOf;
  }

  lemma AcceptableGreatest(m: Minter, row: Row, es: set<Event>, f: Facet)
    requires Loadable(m, row, es) && Touched(es, f)
    ensures DeciderOf(es, f) in es && Acceptable(DeciderOf(es, f).change) && Touches(DeciderOf(es, f).change, f)
    ensures Identified(es)
  {
    hide Le, Touches, MintsApart;
  }

  /** The minted create of a later row loses to an event that outlives it. */
  lemma OutlivesCreate(m: Minter, row: Row, mid: Row, f: Facet, t: Event)
    requires ModeOf(m, mid) == Mixed && mid.createdAt == row.createdAt && (f.Field? || f == Phase ==> Undying(t.stamp, Some(row.createdAt)))
    requires f != Exists
    ensures var create := Touching(CreateIn(m, mid, Mixed), f); create.Some? ==> !Le(t.stamp, create.value.stamp)
  {
    hide ModeOf, Le, Undying;
    if f.Field? || f == Phase {
      UndyingWins(m, t.stamp, Create(mid.view.fields), Some(mid.createdAt), mid.updatedAt);
    }
  }

  /** A facet no longer than its greatest event waits stays open: nothing lesser shuts it, and no later reading. */
  lemma StaysOpen(m: Minter, row: Row, mid: Row, batch: set<Event>, now: real, es: set<Event>, f: Facet)
    requires Along(m, row, es, mid) && Steady(m, row, es) && ModeOf(m, row) != Unread && Loadable(m, row, es)
    requires batch <= es && Loadable(m, mid, batch) && mid.updatedAt < now
    requires Touched(es, f) && DeciderOf(es, f) !in batch && OpenTo(m, row, mid, f, DeciderOf(es, f))
    requires Timeless(m, row, es, f, DeciderOf(es, f))
    ensures OpenTo(m, row, AfterLoad(m, mid, batch, now), f, DeciderOf(es, f))
  {
    hide WellFormed, ModeOf, Le, PhaseHeld, ReadAt, Own, Loadable, AfterLoad, Touches, DeciderOf, Steady, Undying, OthersStill, SameHold, Wins;
    var row', t := AfterLoad(m, mid, batch, now), DeciderOf(es, f);
    AlongStep(m, row, es, mid, batch, now);
    AcceptableGreatest(m, row, es, f);
    NotExistence(t.change, f);
    SteadyPhase(m, row, es);
    LoadAt(m, mid, batch, now, f);
    OwnAfter(m, mid, batch, now, f);
    WinsOverBoth(m, mid, t, f);
    WinsOverBoth(m, row', t, f);
    if ModeOf(m, row) == Mixed {
      OutlivesCreate(m, row, row', f, t);
    }
    if Taken(m, mid, batch, f) {
      TakenOf(m, mid, batch, f);
      LesserOfPart(es, batch, f);
      OwnIsNotNative(m, mid, batch, now, f);
    } else {
      UntakenOpen(m, row, mid, batch, now, es, f);
    }
  }

  lemma NotExistence(c: Change, f: Facet)
    requires Acceptable(c) && Touches(c, f)
    ensures f != Exists
  {}

  /** A facet that was taken is not native: what took it is its own event, or the field shows nothing minted alone. */
  lemma OwnIsNotNative(m: Minter, mid: Row, batch: set<Event>, now: real, f: Facet)
    requires WellFormed(mid) && Loadable(m, mid, batch) && ModeOf(m, mid) != Unread && Taken(m, mid, batch, f)
    ensures !IsNative(AfterLoad(m, mid, batch, now), f)
  {
    hide WellFormed, ModeOf, Le, ReadAt, Own, Loadable, AfterLoad, Touches, DeciderOf;
    TakenOf(m, mid, batch, f);
    OwnAfter(m, mid, batch, now, f);
    BlankIsField(DeciderOf(batch, f).change, f);
  }

  lemma UntakenOpen(m: Minter, row: Row, mid: Row, batch: set<Event>, now: real, es: set<Event>, f: Facet)
    requires Along(m, row, es, mid) && Steady(m, row, es) && ModeOf(m, row) != Unread && Loadable(m, row, es)
    requires batch <= es && Loadable(m, mid, batch) && mid.updatedAt < now
    requires Touched(es, f) && OpenTo(m, row, mid, f, DeciderOf(es, f)) && f != Exists
    requires Timeless(m, row, es, f, DeciderOf(es, f)) && !Taken(m, mid, batch, f)
    ensures OpenTo(m, row, AfterLoad(m, mid, batch, now), f, DeciderOf(es, f))
  {
    hide WellFormed, ModeOf, Le, PhaseHeld, ReadAt, Own, Loadable, AfterLoad, Touches, DeciderOf, Steady, Undying, OthersStill, SameHold, Wins;
    var row', t := AfterLoad(m, mid, batch, now), DeciderOf(es, f);
    AlongStep(m, row, es, mid, batch, now);
    SteadyPhase(m, row, es);
    LoadAt(m, mid, batch, now, f);
    OwnAfter(m, mid, batch, now, f);
    WinsOverBoth(m, mid, t, f);
    WinsOverBoth(m, row', t, f);
    SameNative(mid, row', f);
    if ModeOf(m, row) == Mixed {
      OutlivesCreate(m, row, row', f, t);
      if IsNative(mid, f) {
        if Undying(t.stamp, DateOf(row, f)) {
          UndyingWins(m, t.stamp, NativeChange(row', f).value, DateOf(row', f), row'.updatedAt);
        } else {
          StillRow(m, row, batch, now, es, f);
        }
      }
    }
  }

  lemma SameNative(a: Row, b: Row, f: Facet)
    requires Own(b, f) == Own(a, f) && ValueAt(b.view, f) == ValueAt(a.view, f)
    ensures IsNative(a, f) <==> IsNative(b, f)
  {}

  // ----- loads that write nothing -----

  /** The batch takes no facet, or only a type that is already down as blanked by the same event. */
  ghost predicate Inert(m: Minter, row: Row, batch: set<Event>) {
    forall f :: Taken(m, row, batch, f) ==>
      f == Field(TYPE) && Blank(DeciderOf(batch, f).change) && f in row.document && row.document[f] == DeciderOf(batch, f)
  }

  lemma InertWritesNothing(m: Minter, row: Row, batch: set<Event>)
    requires WellFormed(row) && Loadable(m, row, batch) && Inert(m, row, batch) && ModeOf(m, row) != Unread
    ensures !Writes(m, row, Outcome(m, row, batch))
  {
    hide WellFormed, Le, Touches, Loadable, Taken, Base, DecidersOf, IsEmpty, Diff, DeciderOf, ReadAt, Events, ModeOf, StateAt;
    var out := Outcome(m, row, batch);
    forall f | f in Updated(m, row, out) ensures f in row.document && Updated(m, row, out)[f] == row.document[f] {
      OutcomeAt(m, row, batch, out, f);
    }
    assert Updated(m, row, out) == row.document;
    InertPlan(m, row, batch, out);
  }

  lemma InertPlan(m: Minter, row: Row, batch: set<Event>, out: map<Facet, Event>)
    requires WellFormed(row) && Loadable(m, row, batch) && Inert(m, row, batch) && ModeOf(m, row) != Unread
    requires DecidersOf(Events(m, row) + batch, out)
    ensures IsEmpty(PlanFor(m, row, out))
  {
    hide WellFormed, Le, Touches, Loadable, Taken, Base, DecidersOf, IsEmpty, Diff, DeciderOf, CanWrite, ReadAt, Events, ModeOf, StateAt;
    var was, now := StateAt(Base(m, row)), StateAt(out);
    forall f
      ensures f != Field(TYPE) ==> ValueAt(ViewOf(was), f) == ValueAt(ViewOf(now), f)
      ensures if Taken(m, row, batch, f) then f in out && ValueAt(ViewOf(now), f) == Says(out[f].change, f) && out[f] == DeciderOf(batch, f)
              else ValueAt(ViewOf(now), f) == ValueAt(ViewOf(was), f)
    {
      OutcomeAt(m, row, batch, out, f);
      StateShows(out, f);
      BaseShows(m, row);
      ReaderExplains(m, row, f);
      assert Taken(m, row, batch, f) ==> f == Field(TYPE);
    }
    SameButType(was, now);
    forall n ensures n !in Planned(was, now) {
      BlankTypeUnwritable(m, row, batch, was, now, n);
    }
    PlannedEmpty(was, now);
  }

  lemma SameButType(was: BeadState, now: BeadState)
    requires forall f :: f != Field(TYPE) ==> ValueAt(ViewOf(was), f) == ValueAt(ViewOf(now), f)
    ensures was.labels == now.labels && was.edges == now.edges && StatusOf(was.phase) == StatusOf(now.phase)
    ensures forall n: FieldName :: n != TYPE ==> Look(was.fields, n) == Look(now.fields, n)
  {
    forall t ensures t in was.labels <==> t in now.labels {
      assert ValueAt(ViewOf(was), Label(t)) == ValueAt(ViewOf(now), Label(t));
    }
    forall e ensures e in was.edges <==> e in now.edges {
      assert ValueAt(ViewOf(was), EdgeTo(e)) == ValueAt(ViewOf(now), EdgeTo(e));
    }
    assert ValueAt(ViewOf(was), Phase) == ValueAt(ViewOf(now), Phase);
    forall n: FieldName | n != TYPE ensures Look(was.fields, n) == Look(now.fields, n) {
      assert ValueAt(ViewOf(was), Field(n)) == ValueAt(ViewOf(now), Field(n));
    }
  }

  lemma BlankTypeUnwritable(m: Minter, row: Row, batch: set<Event>, was: BeadState, now: BeadState, n: FieldName)
    requires Inert(m, row, batch)
    requires forall k: FieldName :: k != TYPE ==> Look(was.fields, k) == Look(now.fields, k)
    requires if Taken(m, row, batch, Field(TYPE)) then ValueAt(ViewOf(now), Field(TYPE)) == Says(DeciderOf(batch, Field(TYPE)).change, Field(TYPE))
             else ValueAt(ViewOf(now), Field(TYPE)) == ValueAt(ViewOf(was), Field(TYPE))
    ensures n !in Planned(was, now)
  {
    hide Le, Touches, Taken, DeciderOf;
    if Taken(m, row, batch, Field(TYPE)) {
      assert Blank(DeciderOf(batch, Field(TYPE)).change);
    }
  }

  /** A batch of events that stir nothing leaves the row exactly as it is. */
  lemma StillRow(m: Minter, row: Row, batch: set<Event>, now: real, es: set<Event>, f: Facet)
    requires WellFormed(row) && Loadable(m, row, batch) && batch <= es && ModeOf(m, row) != Unread
    requires OthersStill(m, row, es, f) && (Taken(m, row, batch, f) ==> !Stirs(m, row, DeciderOf(batch, f)))
    ensures AfterLoad(m, row, batch, now) == row
  {
    hide WellFormed, Le, Touches, Loadable, ReadAt, Writes, Blank, ModeOf;
    forall g | Taken(m, row, batch, g)
      ensures g == Field(TYPE) && Blank(DeciderOf(batch, g).change) && g in row.document && row.document[g] == DeciderOf(batch, g)
    {
      TakenOf(m, row, batch, g);
      var e := DeciderOf(batch, g);
      AcceptableIsSingle(e.change, g);
      AcceptableIsSingle(e.change, f);
    }
    InertWritesNothing(m, row, batch);
  }

  // ----- a facet whose greatest event cannot be outlived -----

  /** The create read beside the event is no later. */
  lemma CreateNoLater(m: Minter, row: Row, mid: Row, es: set<Event>, f: Facet, t: Event)
    requires ModeOf(m, mid) == ModeOf(m, row) && mid.createdAt == row.createdAt && Steady(m, row, es) && f != Exists
    requires Timeless(m, row, es, f, t)
    requires ModeOf(m, row) == Stored ==> (Touching(Born(mid), f).Some? ==> Le(Touching(Born(mid), f).value.stamp, t.stamp))
    ensures var create := Touching(CreateIn(m, mid, ModeOf(m, mid)), f); create.Some? ==> Le(create.value.stamp, t.stamp)
  {
    hide ModeOf, Le, Undying, Steady, OthersStill, IsNative;
    SteadyPhase(m, row, es);
    if ModeOf(m, row) == Mixed {
      OutlivesCreate(m, row, mid, f, t);
      var create := Touching(CreateIn(m, mid, Mixed), f);
      if create.Some? {
        LeTotal(create.value.stamp, t.stamp);
      }
    }
  }

  lemma HeldStays(m: Minter, row: Row, mid: Row, batch: set<Event>, now: real, es: set<Event>, f: Facet)
    requires Along(m, row, es, mid) && Steady(m, row, es) && ModeOf(m, row) != Unread && Loadable(m, row, es)
    requires batch <= es && Loadable(m, mid, batch) && mid.updatedAt < now
    requires Touched(es, f) && Holds(m, mid, f, DeciderOf(es, f)) && Timeless(m, row, es, f, DeciderOf(es, f))
    ensures Holds(m, AfterLoad(m, mid, batch, now), f, DeciderOf(es, f))
  {
    hide WellFormed, ModeOf, Le, PhaseHeld, Own, Loadable, AfterLoad, Touches, DeciderOf, Steady, Undying, OthersStill, SameHold, Timeless;
    var row', t := AfterLoad(m, mid, batch, now), DeciderOf(es, f);
    AcceptableGreatest(m, row, es, f);
    NotExistence(t.change, f);
    if Touched(batch, f) {
      LesserOfPart(es, batch, f);
    }
    assert !Taken(m, mid, batch, f);
    AlongStep(m, row, es, mid, batch, now);
    OwnAfter(m, mid, batch, now, f);
    if ModeOf(m, row) == Stored && Touching(Born(mid), f).Some? {
      CreateBeaten(m, mid, f);
    }
    CreateNoLater(m, row, row', es, f, t);
    OwnRead(m, row', f, t, es, row);
  }

  /** The facet's own event is read when the create is no later. */
  lemma OwnRead(m: Minter, row': Row, f: Facet, t: Event, es: set<Event>, row: Row)
    requires Own(row', f) == Some(t) && ModeOf(m, row') == ModeOf(m, row) && Steady(m, row, es) && ModeOf(m, row) != Unread
    requires var create := Touching(CreateIn(m, row', ModeOf(m, row')), f); create.Some? ==> Le(create.value.stamp, t.stamp)
    ensures ReadAt(m, row', f) == Some(t)
  {
    hide ModeOf, Le, Own, Steady, CreateIn;
    SteadyPhase(m, row, es);
    LaterPicks(t, Touching(CreateIn(m, row', ModeOf(m, row')), f));
  }

  lemma OpenIsTaken(m: Minter, row: Row, mid: Row, batch: set<Event>, now: real, es: set<Event>, f: Facet)
    requires Along(m, row, es, mid) && Steady(m, row, es) && ModeOf(m, row) != Unread && Loadable(m, row, es)
    requires batch <= es && Loadable(m, mid, batch) && mid.updatedAt < now
    requires Touched(es, f) && DeciderOf(es, f) in batch && Wins(m, mid, DeciderOf(es, f), f)
    requires !Blank(DeciderOf(es, f).change) && Timeless(m, row, es, f, DeciderOf(es, f))
    ensures Holds(m, AfterLoad(m, mid, batch, now), f, DeciderOf(es, f))
  {
    hide WellFormed, ModeOf, Le, PhaseHeld, Own, Loadable, AfterLoad, Touches, DeciderOf, Steady, Undying, OthersStill, SameHold, Timeless, ReadAt, Blank;
    var row', t := AfterLoad(m, mid, batch, now), DeciderOf(es, f);
    AcceptableGreatest(m, row, es, f);
    NotExistence(t.change, f);
    GreatestOfPart(es, batch, f);
    assert Taken(m, mid, batch, f);
    AlongStep(m, row, es, mid, batch, now);
    OwnAfter(m, mid, batch, now, f);
    if ModeOf(m, row) == Stored && Touching(Born(mid), f).Some? {
      CreateBeaten(m, mid, f);
      LeTotal(t.stamp, ReadAt(m, mid, f).value.stamp);
      LeTransitive(Born(mid).value.stamp, ReadAt(m, mid, f).value.stamp, t.stamp);
    }
    CreateNoLater(m, row, row', es, f, t);
    OwnRead(m, row', f, t, es, row);
  }

  /** The greatest event of a facet, if it shows in bd and nothing minted can outlive it, holds the facet in the
      end, however the events are split. */
  lemma {:induction false} GreatestHolds(m: Minter, row: Row, loads: seq<Load>, es: set<Event>, f: Facet)
    requires Loads(m, row, loads) && AllEvents(loads) <= es && Loadable(m, row, es) && Steady(m, row, es) && ModeOf(m, row) != Unread
    requires Taken(m, row, es, f) && !Blank(DeciderOf(es, f).change) && Timeless(m, row, es, f, DeciderOf(es, f))
    ensures var row', t := AfterLoads(m, row, loads), DeciderOf(es, f);
      if t in AllEvents(loads) then Holds(m, row', f, t) else OpenTo(m, row, row', f, t)
    decreases |loads|
  {
    hide WellFormed, ModeOf, Le, Loadable, AfterLoad, Touches, DeciderOf, Steady, Timeless, Holds, OpenTo, Blank, Along, Taken;
    TakenOf(m, row, es, f);
    if loads == [] {
      OpenAtFirst(m, row, es, f);
    } else {
      var short, mid, last := LastLoad(m, row, loads);
      GreatestHolds(m, row, short, es, f);
      AlongLoads(m, row, es, short);
      if DeciderOf(es, f) in AllEvents(short) {
        HeldStays(m, row, mid, last.batch, last.now, es, f);
      } else if DeciderOf(es, f) in last.batch {
        OpenWins(m, row, mid, f, DeciderOf(es, f));
        OpenIsTaken(m, row, mid, last.batch, last.now, es, f);
      } else {
        StaysOpen(m, row, mid, last.batch, last.now, es, f);
      }
    }
  }

  lemma OpenWins(m: Minter, row: Row, mid: Row, f: Facet, t: Event)
    requires OpenTo(m, row, mid, f, t)
    ensures Wins(m, mid, t, f)
  {}

  // ----- a blanked field of a row read from its stored events -----

  /** Shows a value. */
  predicate Loud(x: Event, f: Facet) {
    Touches(x.change, f) && !Blank(x.change) && Says(x.change, f) != FieldIs(None)
  }

  ghost predicate NoneLoud(es: set<Event>, f: Facet) {
    forall x :: x in es ==> !Loud(x, f)
  }

  /** Once the greatest event has set a field to the empty text, and no other shows a value, the field stays clear. */
  lemma {:induction false} BlankedStays(m: Minter, row: Row, loads: seq<Load>, es: set<Event>, f: Facet)
    requires Loads(m, row, loads) && AllEvents(loads) <= es && Loadable(m, row, es) && Steady(m, row, es) && ModeOf(m, row) == Stored
    requires Taken(m, row, es, f) && Blank(DeciderOf(es, f).change) && NoneLoud(es, f)
    ensures var row', t := AfterLoads(m, row, loads), DeciderOf(es, f);
      && (t in AllEvents(loads) ==> ValueAt(row'.view, f) == FieldIs(None))
      && (t !in AllEvents(loads) ==> OpenTo(m, row, row', f, t))
    decreases |loads|
  {
    hide WellFormed, ModeOf, Le, Loadable, AfterLoad, Touches, DeciderOf, Steady, Holds, OpenTo, Along, Taken, NoneLoud;
    var t := DeciderOf(es, f);
    TakenOf(m, row, es, f);
    StoredBlankIsPlain(m, row, es, t, f);
    if loads == [] {
      OpenAtFirst(m, row, es, f);
    } else {
      var short, mid, last := LastLoad(m, row, loads);
      BlankedStays(m, row, short, es, f);
      AlongLoads(m, row, es, short);
      AlongMode(m, row, es, mid);
      LoadAt(m, mid, last.batch, last.now, f);
      if Taken(m, mid, last.batch, f) {
        TakenOf(m, mid, last.batch, f);
        QuietShown(es, mid, DeciderOf(last.batch, f), f);
      } else if t in last.batch && t !in AllEvents(short) {
        AcceptableGreatest(m, row, es, f);
        GreatestOfPart(es, last.batch, f);
        OpenMeansTaken(m, row, mid, last.batch, f);
      }
      if t !in AllEvents(loads) {
        StaysOpen(m, row, mid, last.batch, last.now, es, f);
      }
    }
  }

  lemma AlongMode(m: Minter, row: Row, es: set<Event>, mid: Row)
    requires Along(m, row, es, mid)
    ensures ModeOf(m, mid) == ModeOf(m, row) && WellFormed(mid) && SameTimes(row, mid)
  {}

  lemma StoredBlankIsPlain(m: Minter, row: Row, es: set<Event>, t: Event, f: Facet)
    requires Steady(m, row, es) && ModeOf(m, row) == Stored && t in es && Blank(t.change) && Touches(t.change, f)
    ensures f.Field? && f != Field(TYPE)
  {
    hide ModeOf;
    StoredHasCreate(m, row);
    BlankIsField(t.change, f);
  }

  lemma QuietShown(es: set<Event>, mid: Row, e: Event, f: Facet)
    requires NoneLoud(es, f) && e in es && Touches(e.change, f) && f.Field? && f != Field(TYPE)
    ensures Shown(mid, e, f) == FieldIs(None)
  {
    hide Touches;
    assert !Loud(e, f);
  }

  lemma OpenMeansTaken(m: Minter, row: Row, mid: Row, batch: set<Event>, f: Facet)
    requires Touched(batch, f) && OpenTo(m, row, mid, f, DeciderOf(batch, f))
    ensures Taken(m, mid, batch, f)
  {
    hide Le, Touches, ReadAt, DeciderOf;
  }

  // ----- a native value the greatest event says nothing new about -----

  /** What beats a phase that bd gave the row is after the creation for good. */
  lemma NativePhaseUndying(m: Minter, row: Row, t: Event)
    requires ModeOf(m, row) == Mixed && PhaseHeld(row) && IsNative(row, Phase) && Wins(m, row, t, Phase)
    ensures Undying(t.stamp, Some(row.createdAt))
  {
    hide ModeOf;
    WinsOverBoth(m, row, t, Phase);
  }

  /** Either the event holds the facet, or it is still to come and will, or the native value outlived it. */
  ghost predicate OneOrOtherAt(m: Minter, row: Row, mid: Row, f: Facet, t: Event, seen: bool) {
    || (IsNative(mid, f) && Own(row, f) == Own(mid, f) && ValueAt(mid.view, f) == ValueAt(row.view, f) && (seen ==> !Wins(m, mid, t, f)))
    || (!seen && !IsNative(mid, f) && Wins(m, mid, t, f))
    || Holds(m, mid, f, t)
  }

  lemma {:induction false} OneOrOther(m: Minter, row: Row, loads: seq<Load>, es: set<Event>, f: Facet)
    requires Loads(m, row, loads) && AllEvents(loads) <= es && Loadable(m, row, es) && Steady(m, row, es)
    requires ModeOf(m, row) == Mixed && Taken(m, row, es, f) && IsNative(row, f)
    ensures var t := DeciderOf(es, f); OneOrOtherAt(m, row, AfterLoads(m, row, loads), f, t, t in AllEvents(loads))
    decreases |loads|
  {
    hide WellFormed, ModeOf, Le, Loadable, AfterLoad, Touches, DeciderOf, Steady, Holds, Along, Taken, Wins, Own, ValueAt;
    TakenOf(m, row, es, f);
    if loads != [] {
      var short, mid, last := LastLoad(m, row, loads);
      OneOrOther(m, row, short, es, f);
      AlongLoads(m, row, es, short);
      OneOrOtherStep(m, row, mid, last.batch, last.now, es, f, DeciderOf(es, f) in AllEvents(short));
    }
  }

  lemma NativeIsPlain(row: Row, f: Facet)
    requires IsNative(row, f)
    ensures !f.Field? && f != Exists
  {}

  /** In a facet that bd gave the row, an event that beats it also beats every create minted later. */
  lemma NativeTimeless(m: Minter, row: Row, es: set<Event>, f: Facet, t: Event)
    requires ModeOf(m, row) == Mixed && Steady(m, row, es) && IsNative(row, f) && Wins(m, row, t, f)
    ensures f.Field? || f == Phase ==> Undying(t.stamp, Some(row.createdAt))
  {
    hide ModeOf, Le, Undying, Wins, Own, Taken;
    NativeIsPlain(row, f);
    if f == Phase {
      NativePhaseUndying(m, row, t);
    }
  }

  lemma OneOrOtherStep(m: Minter, row: Row, mid: Row, batch: set<Event>, now: real, es: set<Event>, f: Facet, seen: bool)
    requires Along(m, row, es, mid) && Steady(m, row, es) && ModeOf(m, row) == Mixed && Loadable(m, row, es)
    requires batch <= es && Loadable(m, mid, batch) && mid.updatedAt < now && IsNative(row, f) && Taken(m, row, es, f)
    requires OneOrOtherAt(m, row, mid, f, DeciderOf(es, f), seen)
    ensures var t := DeciderOf(es, f); OneOrOtherAt(m, row, AfterLoad(m, mid, batch, now), f, t, seen || t in batch)
  {
    hide WellFormed, ModeOf, Le, Loadable, AfterLoad, Touches, DeciderOf, Steady, Along, Own, ValueAt, Undying, ReadAt, Blank;
    var row', t := AfterLoad(m, mid, batch, now), DeciderOf(es, f);
    AcceptableGreatest(m, row, es, f);
    NativeIsPlain(row, f);
    AlongMode(m, row, es, mid);
    AlongStep(m, row, es, mid, batch, now);
    AlongMode(m, row, es, row');
    NativeTimeless(m, row, es, f, t);
    LoadAt(m, mid, batch, now, f);
    OwnAfter(m, mid, batch, now, f);
    WinsOverBoth(m, row', t, f);
    OutlivesCreate(m, row, row', f, t);
    if Touched(batch, f) {
      LesserOfPart(es, batch, f);
    }
    if Taken(m, mid, batch, f) {
      TakenOf(m, mid, batch, f);
      BlankIsField(DeciderOf(batch, f).change, f);
      OwnIsNotNative(m, mid, batch, now, f);
      if t in batch {
        GreatestOfPart(es, batch, f);
        MixedOwnRead(m, row', f, t);
      } else {
        GreaterWinsToo(m, mid, f, DeciderOf(batch, f), t);
      }
    } else {
      SameNative(mid, row', f);
      TimesAfter(m, mid, batch, now);
      ReadGrows(m, mid, row', f);
      if Holds(m, mid, f, t) {
        MixedOwnRead(m, row', f, t);
      } else {
        NotWinningStays(m, mid, row', f, t);
        if t in batch {
          GreatestOfPart(es, batch, f);
        }
        if !IsNative(mid, f) {
          WinsOverBoth(m, mid, t, f);
          PlainOwn(m, mid, row', f);
        }
      }
    }
  }

  lemma MixedOwnRead(m: Minter, row: Row, f: Facet, t: Event)
    requires ModeOf(m, row) == Mixed && Own(row, f) == Some(t)
    requires var create := Touching(CreateIn(m, row, Mixed), f); create.Some? ==> !Le(t.stamp, create.value.stamp)
    ensures Holds(m, row, f, t)
  {
    hide ModeOf, Le, Own, CreateIn;
    var create := Touching(CreateIn(m, row, Mixed), f);
    if create.Some? {
      LeTotal(t.stamp, create.value.stamp);
    }
    LaterPicks(t, create);
  }

  lemma GreaterWinsToo(m: Minter, row: Row, f: Facet, e: Event, t: Event)
    requires Wins(m, row, e, f) && Le(e.stamp, t.stamp)
    ensures Wins(m, row, t, f)
  {
    hide Le, ReadAt;
    var r := ReadAt(m, row, f);
    if r.Some? && Le(t.stamp, r.value.stamp) {
      LeTransitive(e.stamp, t.stamp, r.value.stamp);
    }
  }

  lemma NotWinningStays(m: Minter, row: Row, row': Row, f: Facet, t: Event)
    requires ReadAt(m, row, f).Some? ==> ReadAt(m, row', f).Some? && Le(ReadAt(m, row, f).value.stamp, ReadAt(m, row', f).value.stamp)
    ensures !Wins(m, row, t, f) ==> !Wins(m, row', t, f)
  {
    hide Le, ReadAt;
    if !Wins(m, row, t, f) {
      LeTransitive(t.stamp, ReadAt(m, row, f).value.stamp, ReadAt(m, row', f).value.stamp);
    }
  }

  /** A facet without a native value reads the same own event later. */
  lemma PlainOwn(m: Minter, mid: Row, row': Row, f: Facet)
    requires Own(row', f) == Own(mid, f) && ValueAt(row'.view, f) == ValueAt(mid.view, f) && !IsNative(mid, f)
    ensures OwnIn(m, row', Mixed, f) == OwnIn(m, mid, Mixed, f)
  {}

  // ----- a phase that stays open -----

  lemma UndyingUp(a: Stamp, b: Stamp, dated: Option<real>)
    requires Undying(a, dated) && Le(a, b)
    ensures Undying(b, dated)
  {}

  /** Over an open phase, an event that the creation can outlive only ever says open. */
  lemma {:induction false} PhaseStaysOpen(m: Minter, row: Row, loads: seq<Load>, es: set<Event>)
    requires Loads(m, row, loads) && AllEvents(loads) <= es && Loadable(m, row, es) && Steady(m, row, es)
    requires ModeOf(m, row) == Mixed && row.view.status == "open"
    requires Touched(es, Phase) && !Undying(DeciderOf(es, Phase).stamp, Some(row.createdAt))
    ensures AfterLoads(m, row, loads).view.status == "open"
    decreases |loads|
  {
    hide WellFormed, ModeOf, Le, Loadable, AfterLoad, Touches, DeciderOf, Steady, Along, Wins, Undying;
    if loads != [] {
      var short, mid, last := LastLoad(m, row, loads);
      PhaseStaysOpen(m, row, short, es);
      AlongLoads(m, row, es, short);
      AlongMode(m, row, es, mid);
      LoadAt(m, mid, last.batch, last.now, Phase);
      if Taken(m, mid, last.batch, Phase) {
        TakenOf(m, mid, last.batch, Phase);
        var x := DeciderOf(last.batch, Phase);
        BlankIsField(x.change, Phase);
        AcceptableGreatest(m, row, es, Phase);
        LesserOfPart(es, last.batch, Phase);
        TouchesPhase(m, mid);
        CreateBeaten(m, mid, Phase);
        SaysOpen(m, row, mid, es, x, DeciderOf(es, Phase));
      }
    }
  }

  lemma SaysOpen(m: Minter, row: Row, mid: Row, es: set<Event>, x: Event, t: Event)
    requires Steady(m, row, es) && ModeOf(m, row) == Mixed && mid.createdAt == row.createdAt && ModeOf(m, mid) == Mixed
    requires x in es && Touches(x.change, Phase) && Wins(m, mid, x, Phase) && Le(x.stamp, t.stamp)
    requires !Undying(t.stamp, Some(row.createdAt))
    requires ReadAt(m, mid, Phase).Some? && Le(MintedCreate(m, mid).stamp, ReadAt(m, mid, Phase).value.stamp)
    ensures Says(x.change, Phase) == Stands("open")
  {
    hide ModeOf, Le, Touches, Undying, ReadAt, Taken, Minted;
    if Undying(x.stamp, Some(row.createdAt)) {
      UndyingUp(x.stamp, t.stamp, Some(row.createdAt));
    }
    if Earlier(x.stamp.k1, At(row.createdAt)) {
      EarlyLoses(m, mid, x.stamp);
      LeTransitive(x.stamp, MintedCreate(m, mid).stamp, ReadAt(m, mid, Phase).value.stamp);
    }
  }
}
