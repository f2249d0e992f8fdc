/** Fields of a row that is read with a minted create: the create is dated at the creation and owns every
    field the row shows, so events from before then are shut out once any of them shows. */
module BeadFields {
  import opened Wrappers
  import opened BeadLog
  import opened BeadStore
  import opened BeadReader
  import opened BeadLoader
  import opened BeadConvergence

  // ----- what can come to show -----

  /** Some event that takes the field sets it to the empty text. */
  ghost predicate BlankWins(m: Minter, row: Row, es: set<Event>, f: Facet) {
    exists b :: b in es && Touches(b.change, f) && Blank(b.change) && Wins(m, row, b, f)
  }

  /** Beats a create minted after the row's last update. */
  predicate AfterCreation(row: Row, s: Stamp) {
    Undying(s, Some(row.createdAt)) || (s.k1 == At(row.createdAt) && s.k2.At? && row.updatedAt < s.k2.t)
  }

  /** The event can come to show its value: it takes the field from the row, or from a field that was blanked. */
  ghost predicate Threat(m: Minter, row: Row, es: set<Event>, f: Facet, x: Event) {
    && x in es && Loud(x, f)
    && (Wins(m, row, x, f) || (BlankWins(m, row, es, f) && (f == Field(TYPE) ==> AfterCreation(row, x.stamp))))
  }

  /** Whatever gets the row written shows in the field. */
  ghost predicate OnlyItself(m: Minter, row: Row, es: set<Event>, f: Facet) {
    forall y :: y in es && Stirs(m, row, y) ==> Touches(y.change, f) && !(f == Field(TYPE) && Blank(y.change))
  }

  /** Every event that can come to show says what all of them together come to; and if the greatest of them can be
      outlived by what the row shows of the field, that is the same, or the row is not written without showing it. */
  ghost predicate Harmless(m: Minter, row: Row, es: set<Event>, f: Facet)
    requires Touched(es, f)
  {
    var t := DeciderOf(es, f);
    var final := Shown(row, t, f);
    && (forall x :: Threat(m, row, es, f, x) ==> Says(x.change, f) == final)
    && (!Undying(t.stamp, Some(row.createdAt)) && ValueAt(row.view, f) != final && ValueAt(row.view, f) != FieldIs(None) ==>
          OnlyItself(m, row, es, f))
  }

  /** What is read of the field is no earlier than at first, unless it can be blanked. */
  ghost predicate NotLower(m: Minter, row: Row, mid: Row, es: set<Event>, f: Facet) {
    BlankWins(m, row, es, f)
    || (ReadAt(m, row, f).Some? ==> ReadAt(m, mid, f).Some? && Le(ReadAt(m, row, f).value.stamp, ReadAt(m, mid, f).value.stamp))
  }

  lemma NotLowerStep(m: Minter, row: Row, mid: Row, batch: set<Event>, now: real, es: set<Event>, f: Facet)
    requires Along(m, row, es, mid) && Steady(m, row, es) && ModeOf(m, row) == Mixed
    requires batch <= es && Loadable(m, mid, batch) && mid.updatedAt < now && NotLower(m, row, mid, es, f)
    ensures NotLower(m, row, AfterLoad(m, mid, batch, now), es, f)
  {
    hide WellFormed, ModeOf, Le, Loadable, AfterLoad, Touches, DeciderOf, Steady, Along, Own, ValueAt, ReadAt, Blank;
    var row' := AfterLoad(m, mid, batch, now);
    AlongMode(m, row, es, mid);
    AlongStep(m, row, es, mid, batch, now);
    AlongMode(m, row, es, row');
    LoadAt(m, mid, batch, now, f);
    OwnAfter(m, mid, batch, now, f);
    TimesAfter(m, mid, batch, now);
    if Taken(m, mid, batch, f) {
      TakenOf(m, mid, batch, f);
      var x := DeciderOf(batch, f);
      if Blank(x.change) {
        BlankWon(m, row, mid, es, f, x);
      } else {
        OwnNoLater(m, row', f, x);
        if ReadAt(m, row, f).Some? && !BlankWins(m, row, es, f) {
          StillWins(m, row, mid, f, x);
          LeTotal(x.stamp, ReadAt(m, row, f).value.stamp);
          LeTransitive(ReadAt(m, row, f).value.stamp, x.stamp, ReadAt(m, row', f).value.stamp);
        }
      }
    } else {
      ReadGrows(m, mid, row', f);
      if ReadAt(m, row, f).Some? && !BlankWins(m, row, es, f) {
        LeTransitive(ReadAt(m, row, f).value.stamp, ReadAt(m, mid, f).value.stamp, ReadAt(m, row', f).value.stamp);
      }
    }
  }

  /** What beats a later reading beats an earlier one. */
  lemma StillWins(m: Minter, row: Row, mid: Row, f: Facet, x: Event)
    requires Wins(m, mid, x, f)
    requires ReadAt(m, row, f).Some? ==> ReadAt(m, mid, f).Some? && Le(ReadAt(m, row, f).value.stamp, ReadAt(m, mid, f).value.stamp)
    ensures Wins(m, row, x, f)
  {
    hide Le, ReadAt;
    var r := ReadAt(m, row, f);
    if r.Some? && Le(x.stamp, r.value.stamp) {
      LeTransitive(x.stamp, r.value.stamp, ReadAt(m, mid, f).value.stamp);
    }
  }

  lemma OwnNoLater(m: Minter, row: Row, f: Facet, x: Event)
    requires ModeOf(m, row) == Mixed && Own(row, f) == Some(x)
    ensures ReadAt(m, row, f).Some? && Le(x.stamp, ReadAt(m, row, f).value.stamp) && !Wins(m, row, x, f)
  {
    hide ModeOf, Le, Own, CreateIn;
    LeTotal(x.stamp, x.stamp);
    var create := Touching(CreateIn(m, row, Mixed), f);
    if create.Some? {
      LeTotal(x.stamp, create.value.stamp);
    }
  }

  /** A field that shows a value is read as the minted create or later. */
  lemma ShownField(m: Minter, row: Row, f: Facet)
    requires ModeOf(m, row) == Mixed && f.Field? && ValueAt(row.view, f) != FieldIs(None)
    ensures Touching(CreateIn(m, row, ModeOf(m, row)), f) == Some(MintedCreate(m, row))
  {
    hide ModeOf;
  }

  lemma BeatsMinted(m: Minter, row: Row, mid: Row, x: Event)
    requires mid.createdAt == row.createdAt && row.updatedAt < mid.updatedAt && !Le(x.stamp, MintedCreate(m, mid).stamp)
    ensures AfterCreation(row, x.stamp)
  {}

  /** An event that comes to show on the way was a threat from the first. */
  lemma WinnerIsThreat(m: Minter, row: Row, mid: Row, es: set<Event>, f: Facet, x: Event)
    requires Along(m, row, es, mid) && ModeOf(m, row) == Mixed && NotLower(m, row, mid, es, f)
    requires x in es && Loud(x, f) && Wins(m, mid, x, f)
    ensures Threat(m, row, es, f, x)
  {
    hide WellFormed, ModeOf, Le, Touches, Own, ReadAt, AfterCreation, Blank;
    if !BlankWins(m, row, es, f) {
      StillWins(m, row, mid, f, x);
    } else if f == Field(TYPE) && mid != row {
      TypeIsShown(mid);
      ShownField(m, mid, f);
      WinsOverBoth(m, mid, x, f);
      BeatsMinted(m, row, mid, x);
    }
  }

  lemma TypeIsShown(row: Row)
    requires WellFormed(row)
    ensures ValueAt(row.view, Field(TYPE)) != FieldIs(None)
  {}

  // ----- a field whose greatest event can be outlived, or is blank -----

  /** Where the field is on the way to its final value. */
  ghost predicate OnCourse(m: Minter, row: Row, mid: Row, es: set<Event>, f: Facet, seen: bool)
    requires Touched(es, f)
  {
    var t := DeciderOf(es, f);
    var final := Shown(row, t, f);
    var v := ValueAt(mid.view, f);
    && NotLower(m, row, mid, es, f)
    && (if Blank(t.change) || final == FieldIs(None) then
          // nothing comes to show any more
          if seen || f == Field(TYPE) then v == final
          else v == final || mid == row || (Undying(t.stamp, Some(row.createdAt)) && Wins(m, mid, t, f))
        else
          // one value comes to show, and stays
          if seen then v == final && !Wins(m, mid, t, f)
          else v == final || (v == FieldIs(None) && Wins(m, mid, t, f)) || mid == row)
  }

  lemma OnCourseAtFirst(m: Minter, row: Row, es: set<Event>, f: Facet)
    requires WellFormed(row) && Loadable(m, row, es) && ModeOf(m, row) == Mixed && Taken(m, row, es, f) && f.Field?
    ensures OnCourse(m, row, row, es, f, false)
  {
    hide WellFormed, ModeOf, Le, Loadable, Touches, DeciderOf, ReadAt;
    TakenOf(m, row, es, f);
    if ReadAt(m, row, f).Some? {
      LeTotal(ReadAt(m, row, f).value.stamp, ReadAt(m, row, f).value.stamp);
    }
    if f == Field(TYPE) {
      TypeNeverCleared(m, row, es, DeciderOf(es, f));
    }
  }

  /** No event clears the type. */
  lemma TypeNeverCleared(m: Minter, row: Row, es: set<Event>, x: Event)
    requires Loadable(m, row, es) && x in es && Touches(x.change, Field(TYPE))
    ensures Says(x.change, Field(TYPE)) != FieldIs(None)
  {
    hide Identified, MintsApart;
    FieldEvent(x.change, TYPE);
  }

  /** The event that takes the field on the way leaves it on course. */
  lemma TakenOnCourse(m: Minter, row: Row, mid: Row, batch: set<Event>, now: real, es: set<Event>, f: Facet, seen: bool)
    requires Along(m, row, es, mid) && Steady(m, row, es) && ModeOf(m, row) == Mixed && Loadable(m, row, es) && f.Field?
    requires batch <= es && Loadable(m, mid, batch) && mid.updatedAt < now && Taken(m, row, es, f) && Harmless(m, row, es, f)
    requires Blank(DeciderOf(es, f).change) || !Undying(DeciderOf(es, f).stamp, Some(row.createdAt))
    requires OnCourse(m, row, mid, es, f, seen) && Taken(m, mid, batch, f)
    ensures OnCourse(m, row, AfterLoad(m, mid, batch, now), es, f, seen || DeciderOf(es, f) in batch)
  {
    hide WellFormed, ModeOf, Le, Loadable, AfterLoad, Touches, DeciderOf, Steady, Along, Own, ReadAt, Undying, NotLower, BlankWins, OnlyItself, Wins;
    var row', t, x := AfterLoad(m, mid, batch, now), DeciderOf(es, f), DeciderOf(batch, f);
    AlongMode(m, row, es, mid);
    AlongStep(m, row, es, mid, batch, now);
    AlongMode(m, row, es, row');
    NotLowerStep(m, row, mid, batch, now, es, f);
    LoadAt(m, mid, batch, now, f);
    OwnAfter(m, mid, batch, now, f);
    TakenOf(m, row, es, f);
    TakenOf(m, mid, batch, f);
    AcceptableGreatest(m, row, es, f);
    LesserOfPart(es, batch, f);
    if Loud(x, f) {
      WinnerIsThreat(m, row, mid, es, f, x);
    }
    if f == Field(TYPE) {
      TypeNeverCleared(m, row, es, x);
      TypeNeverCleared(m, row, es, t);
      TypeIsShown(mid);
      if Blank(x.change) && mid == row && ValueAt(row.view, f) != Shown(row, t, f) {
        TypeUnwritten(m, row, batch, now, es);
      }
    }
    if t in batch {
      GreatestOfPart(es, batch, f);
      if !Blank(t.change) {
        OwnNoLater(m, row', f, t);
      }
    } else if ValueAt(row'.view, f) == FieldIs(None) {
      ClearWins(m, row', f, t);
    }
    if seen {
      GreaterWinsToo(m, mid, f, x, t);
    }
  }

  lemma BlankWon(m: Minter, row: Row, mid: Row, es: set<Event>, f: Facet, x: Event)
    requires NotLower(m, row, mid, es, f) && x in es && Touches(x.change, f) && Blank(x.change) && Wins(m, mid, x, f)
    ensures BlankWins(m, row, es, f)
  {
    hide Le, Touches, ReadAt, Blank;
    if !BlankWins(m, row, es, f) {
      StillWins(m, row, mid, f, x);
    }
  }

  /** A field that shows nothing is open to whatever beats its own event. */
  lemma ClearWins(m: Minter, row: Row, f: Facet, t: Event)
    requires ModeOf(m, row) == Mixed && f.Field? && ValueAt(row.view, f) == FieldIs(None)
    ensures (Own(row, f).Some? ==> !Le(t.stamp, Own(row, f).value.stamp)) ==> Wins(m, row, t, f)
    ensures Wins(m, row, t, f) ==> (Own(row, f).Some? ==> !Le(t.stamp, Own(row, f).value.stamp))
  {
    hide ModeOf, Le, Own;
    WinsOverBoth(m, row, t, f);
  }

  /** A load that does not take the field leaves it on course. */
  lemma UntakenOnCourse(m: Minter, row: Row, mid: Row, batch: set<Event>, now: real, es: set<Event>, f: Facet, seen: bool)
    requires Along(m, row, es, mid) && Steady(m, row, es) && ModeOf(m, row) == Mixed && Loadable(m, row, es) && f.Field?
    requires batch <= es && Loadable(m, mid, batch) && mid.updatedAt < now && Taken(m, row, es, f) && Harmless(m, row, es, f)
    requires Blank(DeciderOf(es, f).change) || !Undying(DeciderOf(es, f).stamp, Some(row.createdAt))
    requires OnCourse(m, row, mid, es, f, seen) && !Taken(m, mid, batch, f)
    ensures OnCourse(m, row, AfterLoad(m, mid, batch, now), es, f, seen || DeciderOf(es, f) in batch)
  {
    hide WellFormed, ModeOf, Le, Loadable, AfterLoad, Touches, DeciderOf, Steady, Along, Own, ReadAt, Undying, NotLower, BlankWins, OnlyItself, Wins;
    var row', t := AfterLoad(m, mid, batch, now), DeciderOf(es, f);
    AlongMode(m, row, es, mid);
    AlongStep(m, row, es, mid, batch, now);
    AlongMode(m, row, es, row');
    NotLowerStep(m, row, mid, batch, now, es, f);
    LoadAt(m, mid, batch, now, f);
    OwnAfter(m, mid, batch, now, f);
    TimesAfter(m, mid, batch, now);
    ReadGrows(m, mid, row', f);
    NotWinningStays(m, mid, row', f, t);
    AcceptableGreatest(m, row, es, f);
    if t in batch {
      GreatestOfPart(es, batch, f);
    }
    if ValueAt(mid.view, f) == FieldIs(None) {
      ClearWins(m, mid, f, t);
      ClearWins(m, row', f, t);
    }
    if Undying(t.stamp, Some(row.createdAt)) {
      UndyingStays(m, row, mid, row', f, t);
    } else if mid == row && ValueAt(row.view, f) != Shown(row, t, f) && ValueAt(row.view, f) != FieldIs(None) {
      OnlyItselfStill(m, row, es, f);
      StillRow(m, row, batch, now, es, f);
    }
  }

  lemma OnlyItselfStill(m: Minter, row: Row, es: set<Event>, f: Facet)
    requires OnlyItself(m, row, es, f)
    ensures OthersStill(m, row, es, f)
  {
    hide Touches, Stirs;
  }

  /** A blanked type that is already down as blanked gets nothing written. */
  lemma TypeUnwritten(m: Minter, row: Row, batch: set<Event>, now: real, es: set<Event>)
    requires WellFormed(row) && Loadable(m, row, batch) && batch <= es && ModeOf(m, row) != Unread
    requires OnlyItself(m, row, es, Field(TYPE)) && Taken(m, row, batch, Field(TYPE)) && Blank(DeciderOf(batch, Field(TYPE)).change)
    ensures AfterLoad(m, row, batch, now) == row
  {
    hide WellFormed, ModeOf, Le, Loadable, AfterLoad, Touches, DeciderOf, ReadAt;
    TakenOf(m, row, batch, Field(TYPE));
    OnlyItselfStill(m, row, es, Field(TYPE));
    StillRow(m, row, batch, now, es, Field(TYPE));
  }

  /** An event that no create can outlive keeps winning over a field that is not taken. */
  lemma UndyingStays(m: Minter, row: Row, mid: Row, row': Row, f: Facet, t: Event)
    requires ModeOf(m, mid) == Mixed && ModeOf(m, row') == Mixed && f.Field? && row'.createdAt == row.createdAt
    requires Undying(t.stamp, Some(row.createdAt)) && Own(row', f) == Own(mid, f)
    ensures Wins(m, mid, t, f) ==> Wins(m, row', t, f)
  {
    hide ModeOf, Le, Own, Undying;
    WinsOverBoth(m, mid, t, f);
    WinsOverBoth(m, row', t, f);
    OutlivesCreate(m, row, row', f, t);
  }

  /** However the events are split, a harmless field stays on course. */
  lemma {:induction false} StaysOnCourse(m: Minter, row: Row, loads: seq<Load>, es: set<Event>, f: Facet)
    requires Loads(m, row, loads) && AllEvents(loads) <= es && Loadable(m, row, es) && Steady(m, row, es)
    requires ModeOf(m, row) == Mixed && f.Field? && Taken(m, row, es, f) && Harmless(m, row, es, f)
    requires Blank(DeciderOf(es, f).change) || !Undying(DeciderOf(es, f).stamp, Some(row.createdAt))
    ensures OnCourse(m, row, AfterLoads(m, row, loads), es, f, DeciderOf(es, f) in AllEvents(loads))
    decreases |loads|
  {
    hide WellFormed, ModeOf, Le, Loadable, AfterLoad, Touches, DeciderOf, Steady, Along, Taken, OnCourse, Harmless, Undying;
    TakenOf(m, row, es, f);
    if loads == [] {
      OnCourseAtFirst(m, row, es, f);
    } else {
      var short, mid, last := LastLoad(m, row, loads);
      StaysOnCourse(m, row, short, es, f);
      AlongLoads(m, row, es, short);
      var seen := DeciderOf(es, f) in AllEvents(short);
      if Taken(m, mid, last.batch, f) {
        TakenOnCourse(m, row, mid, last.batch, last.now, es, f, seen);
      } else {
        UntakenOnCourse(m, row, mid, last.batch, last.now, es, f, seen);
      }
    }
  }
}
