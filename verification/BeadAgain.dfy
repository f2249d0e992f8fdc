/** What loading the same batch again does. */
module BeadAgain {
  import opened Wrappers
  import opened BeadLog
  import opened BeadStore
  import opened BeadReader
  import opened BeadLoader
  import opened BeadConvergence
  import opened BeadSettled
  import opened BeadOrder

  /** Some column is taken by an event that sets it to the empty text. */
  ghost predicate BlanksAColumn(m: Minter, row: Row, batch: set<Event>) {
    exists f :: Taken(m, row, batch, f) && f != Field(TYPE) && Blank(DeciderOf(batch, f).change)
  }

  /** A row that is read the same way once its batch is loaded. */
  ghost predicate Reloadable(m: Minter, row: Row, batch: set<Event>) {
    WellFormed(row) && Loadable(m, row, batch) && Steady(m, row, batch) && ModeOf(m, row) != Unread
  }

  lemma Reloaded(m: Minter, row: Row, batch: set<Event>, now: real)
    requires Reloadable(m, row, batch) && row.updatedAt < now
    ensures var row' := AfterLoad(m, row, batch, now);
      && WellFormed(row') && Loadable(m, row', batch) && ModeOf(m, row') == ModeOf(m, row) && Along(m, row, batch, row')
      && (ModeOf(m, row) == Stored || ModeOf(m, row) == Mixed) && Born(row') == Born(row)
  {
    hide WellFormed, ModeOf, Loadable, AfterLoad, Steady, Along;
    SteadyPhase(m, row, batch);
    AlongStart(m, row, batch);
    AlongStep(m, row, batch, row, batch, now);
    AlongMode(m, row, batch, AfterLoad(m, row, batch, now));
    LoadableAfter(m, row, batch, now, batch);
  }

  /** Only a column set to the empty text is taken a second time. */
  lemma TakenAgain(m: Minter, row: Row, batch: set<Event>, now: real, f: Facet)
    requires Reloadable(m, row, batch) && row.updatedAt < now
    ensures var again := Taken(m, AfterLoad(m, row, batch, now), batch, f);
      && (again ==> Taken(m, row, batch, f) && Blank(DeciderOf(batch, f).change))
      && (Taken(m, row, batch, f) && Blank(DeciderOf(batch, f).change) && f != Field(TYPE) ==> again)
  {
    hide WellFormed, ModeOf, Loadable, AfterLoad, Steady, Along, ReadAt, Le, Touches, DeciderOf, Own, Blank, ValueAt;
    var row' := AfterLoad(m, row, batch, now);
    Reloaded(m, row, batch, now);
    if Taken(m, row, batch, f) {
      var t := DeciderOf(batch, f);
      TakenOf(m, row, batch, f);
      LoadAt(m, row, batch, now, f);
      OwnAfter(m, row, batch, now, f);
      if !Blank(t.change) {
        OwnStays(m, row', f, t);
      } else if f != Field(TYPE) {
        ShownPlainly(row, t, f);
        ClearedReadsNothing(m, row, batch, row', f, t);
      }
    } else {
      StillNotTaken(m, row, batch, row', f);
    }
  }

  lemma StillNotTaken(m: Minter, row: Row, batch: set<Event>, mid: Row, f: Facet)
    requires Along(m, row, batch, mid) && !Taken(m, row, batch, f)
    ensures !Taken(m, mid, batch, f)
  {
    hide WellFormed, ModeOf, Taken, SameHold, PhaseHeld;
    NotTakenLater(m, row, mid, batch, batch, f);
  }

  /** The second load of a batch leaves every value and stored event as they are. */
  lemma SameAgainAt(m: Minter, row: Row, batch: set<Event>, now: real, again: real, f: Facet)
    requires Reloadable(m, row, batch) && row.updatedAt < now
    ensures var row' := AfterLoad(m, row, batch, now); var row'' := AfterLoad(m, row', batch, again);
      && ValueAt(row''.view, f) == ValueAt(row'.view, f)
      && (f in row''.document <==> f in row'.document) && (f in row'.document ==> row''.document[f] == row'.document[f])
  {
    hide WellFormed, ModeOf, Loadable, AfterLoad, Steady, Along, Wins, Le, Touches, DeciderOf, Blank, ValueAt, Shown;
    var row' := AfterLoad(m, row, batch, now);
    Reloaded(m, row, batch, now);
    TakenAgain(m, row, batch, now, f);
    LoadAt(m, row, batch, now, f);
    LoadAt(m, row', batch, again, f);
    if Taken(m, row', batch, f) {
      BlankTwice(row, row', DeciderOf(batch, f), f);
    }
  }

  lemma BlankTwice(row: Row, row': Row, t: Event, f: Facet)
    requires Blank(t.change) && ValueAt(row'.view, f) == Shown(row, t, f)
    ensures Shown(row', t, f) == Shown(row, t, f)
  {}

  lemma SameAgain(m: Minter, row: Row, batch: set<Event>, now: real, again: real)
    requires Reloadable(m, row, batch) && row.updatedAt < now
    ensures var row' := AfterLoad(m, row, batch, now); var row'' := AfterLoad(m, row', batch, again);
      row''.view == row'.view && row''.document == row'.document
  {
    hide Reloadable, AfterLoad, ValueAt;
    var row' := AfterLoad(m, row, batch, now);
    var row'' := AfterLoad(m, row', batch, again);
    forall f
      ensures ValueAt(row''.view, f) == ValueAt(row'.view, f)
      ensures f in row''.document <==> f in row'.document
      ensures f in row'.document ==> row''.document[f] == row'.document[f]
    {
      SameAgainAt(m, row, batch, now, again, f);
    }
    SameView(row''.view, row'.view);
    assert row''.document.Keys == row'.document.Keys;
  }

  lemma BlankWritesAgain(m: Minter, row: Row, batch: set<Event>, now: real, f: Facet)
    requires Reloadable(m, row, batch) && row.updatedAt < now
    requires Taken(m, row, batch, f) && f != Field(TYPE) && Blank(DeciderOf(batch, f).change)
    ensures var row' := AfterLoad(m, row, batch, now); Writes(m, row', Outcome(m, row', batch))
  {
    hide WellFormed, ModeOf, Loadable, AfterLoad, Steady, Along, Wins, Le, Touches, DeciderOf, Outcome, PlanFor, IsEmpty;
    var row' := AfterLoad(m, row, batch, now);
    Reloaded(m, row, batch, now);
    TakenOf(m, row, batch, f);
    BlankIsField(DeciderOf(batch, f).change, f);
    TakenAgain(m, row, batch, now, f);
    LoadAt(m, row, batch, now, f);
    ChangeIsPlanned(m, row', batch, f);
  }

  lemma QuietAgain(m: Minter, row: Row, batch: set<Event>, now: real)
    requires Reloadable(m, row, batch) && row.updatedAt < now && !BlanksAColumn(m, row, batch)
    ensures var row' := AfterLoad(m, row, batch, now); !Writes(m, row', Outcome(m, row', batch))
  {
    hide WellFormed, ModeOf, Loadable, AfterLoad, Steady, Along, Wins, Le, Touches, DeciderOf, Outcome, Writes, Blank;
    var row' := AfterLoad(m, row, batch, now);
    Reloaded(m, row, batch, now);
    forall f | Taken(m, row', batch, f)
      ensures f == Field(TYPE) && Blank(DeciderOf(batch, f).change) && f in row'.document && row'.document[f] == DeciderOf(batch, f)
    {
      TakenAgain(m, row, batch, now, f);
      LoadAt(m, row, batch, now, f);
    }
    InertWritesNothing(m, row', batch);
  }

  /** Loading the same batch a second time writes if and only if it sets a column to the empty text that nothing in
      the row or the batch overrides; and then it writes the same values again. */
  lemma WritesAgainIff(m: Minter, row: Row, batch: set<Event>, now: real, again: real)
    requires Reloadable(m, row, batch) && row.updatedAt < now < again
    ensures var row' := AfterLoad(m, row, batch, now);
      && (Writes(m, row', Outcome(m, row', batch)) <==> BlanksAColumn(m, row, batch))
      && AfterLoad(m, row', batch, again) == if BlanksAColumn(m, row, batch) then row'.(updatedAt := again) else row'
  {
    hide WellFormed, ModeOf, Loadable, Steady, Along, AfterDeciding, Outcome, Writes, Blank, Taken;
    var row' := AfterLoad(m, row, batch, now);
    Reloaded(m, row, batch, now);
    if BlanksAColumn(m, row, batch) {
      var f :| Taken(m, row, batch, f) && f != Field(TYPE) && Blank(DeciderOf(batch, f).change);
      BlankWritesAgain(m, row, batch, now, f);
    } else {
      QuietAgain(m, row, batch, now);
    }
    SameAgain(m, row, batch, now, again);
    AfterIs(m, row', Outcome(m, row', batch), again);
  }
}
