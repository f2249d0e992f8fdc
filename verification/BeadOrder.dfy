/** Exactly when the order of loads does not matter. */
module BeadOrder {
  import opened Wrappers
  import opened BeadLog
  import opened BeadStore
  import opened BeadReader
  import opened BeadLoader
  import opened BeadConvergence
  import opened BeadFields
  import opened BeadSettled

  ghost predicate OrderFree(m: Minter, row: Row, es: set<Event>) {
    forall a, b :: Splits(m, row, es, a) && Splits(m, row, es, b) ==> AfterLoads(m, row, a).view == AfterLoads(m, row, b).view
  }

  /** Two ways of loading the events end with different values of the facet. */
  ghost predicate Differs(m: Minter, row: Row, es: set<Event>, f: Facet, a: seq<Load>, b: seq<Load>) {
    && Splits(m, row, es, a) && Splits(m, row, es, b)
    && ValueAt(AfterLoads(m, row, a).view, f) != ValueAt(AfterLoads(m, row, b).view, f)
  }

  /** All events at once. */
  lemma Together(m: Minter, row: Row, es: set<Event>, f: Facet)
    requires WellFormed(row) && Loadable(m, row, es) && ModeOf(m, row) != Unread && Taken(m, row, es, f)
    ensures var all := [Load(es, row.updatedAt + 1.0)];
      Splits(m, row, es, all) && ValueAt(AfterLoads(m, row, all).view, f) == Shown(row, DeciderOf(es, f), f)
  {
    hide WellFormed, Loadable, AfterLoad, AfterLoads, ModeOf, Taken, Touches, Le, Splits, DeciderOf;
    OneLoad(m, row, es, row.updatedAt + 1.0);
    LoadAt(m, row, es, row.updatedAt + 1.0, f);
  }

  /** The empty text wins over an event that shows something, and later loses to it: with that one loaded last, the
      field shows its value. */
  lemma BlankOrderMatters(m: Minter, row: Row, es: set<Event>, f: Facet, x: Event)
    requires WellFormed(row) && Loadable(m, row, es) && Steady(m, row, es)
    requires (ModeOf(m, row) == Stored || ModeOf(m, row) == Mixed) && Taken(m, row, es, f)
    requires Blank(DeciderOf(es, f).change) && f != Field(TYPE) && x in es && Loud(x, f)
    ensures var u := row.updatedAt; var a, b := [Load(es, u + 1.0)], [Load(es - {x}, u + 1.0), Load({x}, u + 2.0)];
      && Splits(m, row, es, a) && Splits(m, row, es, b)
      && ValueAt(AfterLoads(m, row, a).view, f) == FieldIs(None)
      && ValueAt(AfterLoads(m, row, b).view, f) == Says(x.change, f) != FieldIs(None)
  {
    hide WellFormed, Loadable, AfterLoad, AfterLoads, ModeOf, Touches, Le, Splits, DeciderOf, Steady, ReadAt, Own, Along;
    var u, t, rest := row.updatedAt, DeciderOf(es, f), es - {x};
    TakenOf(m, row, es, f);
    BlankIsField(t.change, f);
    Together(m, row, es, f);
    assert rest + {x} == es;
    TwoLoads(m, row, rest, {x}, u + 1.0, u + 2.0);
    AcceptableGreatest(m, row, es, f);
    GreatestOfPart(es, rest, f);
    var mid := AfterLoad(m, row, rest, u + 1.0);
    LoadAt(m, row, rest, u + 1.0, f);
    OwnAfter(m, row, rest, u + 1.0, f);
    SteadyPhase(m, row, es);
    AlongStart(m, row, es);
    AlongStep(m, row, es, row, rest, u + 1.0);
    AlongMode(m, row, es, mid);
    OnlyDecider(x, f);
    ClearedReadsNothing(m, row, es, mid, f, t);
    assert Taken(m, mid, {x}, f);
    LoadAt(m, mid, {x}, u + 2.0, f);
  }

  /** Nothing is read of a field that was blanked. */
  lemma ClearedReadsNothing(m: Minter, row: Row, es: set<Event>, mid: Row, f: Facet, t: Event)
    requires Steady(m, row, es) && ModeOf(m, mid) == ModeOf(m, row) && Born(mid) == Born(row)
    requires ModeOf(m, row) == Stored || ModeOf(m, row) == Mixed
    requires t in es && Blank(t.change) && Touches(t.change, f) && ValueAt(mid.view, f) == FieldIs(None) && Own(mid, f).None?
    ensures ReadAt(m, mid, f).None?
  {
    hide ModeOf, Le, Own;
    BlankIsField(t.change, f);
    if ModeOf(m, row) == Stored {
      StoredHasCreate(m, row);
    }
  }

  // ----- what a late reading shuts out -----

  /** The event gets the row written, late enough for the minted create to shut out the greatest event of a field
      that shows a value; or for a type, that event is blank and shuts nothing out. */
  lemma ShutOut(m: Minter, row: Row, mid: Row, es: set<Event>, y: Event, late: real, f: Facet)
    requires Along(m, row, es, mid) && Steady(m, row, es) && ModeOf(m, row) == Mixed && f.Field? && Touched(es, f)
    requires Loadable(m, mid, es) && Loadable(m, row, es) && y in es && Stirs(m, mid, y) && mid.updatedAt < late
    requires (f == Field(TYPE) && Blank(DeciderOf(es, f).change))
             || forall c, w :: late <= w ==> Le(DeciderOf(es, f).stamp, Minted(m, c, Some(row.createdAt), w).stamp)
    requires ValueAt(AfterLoad(m, mid, {y}, late).view, f) != FieldIs(None)
    ensures var last := AfterLoad(m, AfterLoad(m, mid, {y}, late), es, late + 1.0);
      ValueAt(last.view, f) == ValueAt(AfterLoad(m, mid, {y}, late).view, f)
  {
    hide WellFormed, Loadable, AfterLoad, ModeOf, Touches, Le, DeciderOf, Steady, ReadAt, Own, Along, Stirs, Minted, ValueAt, Blank;
    var row' := AfterLoad(m, mid, {y}, late);
    AlongMode(m, row, es, mid);
    LoadablePart(m, mid, es, {y});
    StirWrites(m, mid, y, late);
    AlongStep(m, row, es, mid, {y}, late);
    AlongMode(m, row, es, row');
    LoadableAfter(m, mid, {y}, late, es);
    LoadAt(m, row', es, late + 1.0, f);
    if Taken(m, row', es, f) {
      ShownField(m, row', f);
      MintedAgain(m, row', late);
      WinsOverBoth(m, row', DeciderOf(es, f), f);
      BlankTypeShows(row', DeciderOf(es, f), f);
    }
  }

  lemma MintedAgain(m: Minter, row: Row, late: real)
    ensures MintedCreate(m, row) == Minted(m, Create(row.view.fields), Some(row.createdAt), row.updatedAt)
  {}

  lemma BlankTypeShows(row: Row, t: Event, f: Facet)
    ensures f == Field(TYPE) && Blank(t.change) ==> Shown(row, t, f) == ValueAt(row.view, f)
  {}

  /** A time late enough for a minted create to shut the event out, if any is. */
  lemma LateEnough(m: Minter, row: Row, t: Event, from: real) returns (late: real)
    ensures from < late
    ensures Undying(t.stamp, Some(row.createdAt)) || forall c, w :: late <= w ==> Le(t.stamp, Minted(m, c, Some(row.createdAt), w).stamp)
  {
    hide Le, Minted, Undying;
    late := from + 1.0;
    if !Undying(t.stamp, Some(row.createdAt)) {
      var past := MortalLoses(t.stamp, Some(row.createdAt), from);
      late := past + 1.0;
    }
  }

  // ----- fields that do not settle -----

  /** An event that takes the field from the row, loaded by itself, keeps the later ones out. */
  lemma LoudFirst(m: Minter, row: Row, es: set<Event>, f: Facet, x: Event) returns (a: seq<Load>, b: seq<Load>)
    requires WellFormed(row) && Loadable(m, row, es) && Steady(m, row, es) && ModeOf(m, row) == Mixed && Taken(m, row, es, f) && f.Field?
    requires var t := DeciderOf(es, f); if Blank(t.change) then f == Field(TYPE) else !Undying(t.stamp, Some(row.createdAt))
    requires x in es && Loud(x, f) && Wins(m, row, x, f) && Says(x.change, f) != Shown(row, DeciderOf(es, f), f)
    ensures Differs(m, row, es, f, a, b)
  {
    hide WellFormed, Loadable, AfterLoad, AfterLoads, ModeOf, Touches, Le, Splits, DeciderOf, Steady, ReadAt, Own, Along, Shown, Minted, Undying, Stirs;
    var t := DeciderOf(es, f);
    var late := LateEnough(m, row, t, row.updatedAt);
    TakenOf(m, row, es, f);
    a, b := [Load(es, row.updatedAt + 1.0)], [Load({x}, late), Load(es, late + 1.0)];
    Together(m, row, es, f);
    assert {x} + es == es;
    TwoLoads(m, row, {x}, es, late, late + 1.0);
    OnlyDecider(x, f);
    assert Taken(m, row, {x}, f);
    LoadAt(m, row, {x}, late, f);
    ShownPlainly(row, x, f);
    SteadyPhase(m, row, es);
    AlongStart(m, row, es);
    LoudStirs(m, row, es, x, f);
    ShutOut(m, row, row, es, x, late, f);
  }

  lemma LoudStirs(m: Minter, row: Row, es: set<Event>, x: Event, f: Facet)
    requires Loadable(m, row, es) && x in es && Loud(x, f) && Wins(m, row, x, f)
    ensures Stirs(m, row, x)
  {
    hide Le, ReadAt, Identified, MintsApart;
    AcceptableIsSingle(x.change, f);
  }

  /** An event that the row shuts out comes to show once the field is blanked, and keeps the later ones out. */
  lemma BlankFirst(m: Minter, row: Row, es: set<Event>, f: Facet, x: Event) returns (a: seq<Load>, b: seq<Load>)
    requires WellFormed(row) && Loadable(m, row, es) && Steady(m, row, es) && ModeOf(m, row) == Mixed && Taken(m, row, es, f) && f.Field?
    requires var t := DeciderOf(es, f); if Blank(t.change) then f == Field(TYPE) else !Undying(t.stamp, Some(row.createdAt))
    requires Threat(m, row, es, f, x) && !Wins(m, row, x, f) && Says(x.change, f) != Shown(row, DeciderOf(es, f), f)
    ensures Differs(m, row, es, f, a, b)
  {
    hide WellFormed, Loadable, AfterLoad, AfterLoads, ModeOf, Le, Splits, DeciderOf, Steady, ReadAt, Own, Along, Shown, Minted, Undying, Stirs, Wins, Touches, AfterCreation, Blank;
    var e :| e in es && Touches(e.change, f) && Blank(e.change) && Wins(m, row, e, f);
    var t := DeciderOf(es, f);
    var soon := SoonEnough(row, x.stamp);
    var late := LateEnough(m, row, t, soon);
    TakenOf(m, row, es, f);
    a, b := [Load(es, row.updatedAt + 1.0)], [Load({e}, soon), Load({x}, late), Load(es, late + 1.0)];
    Together(m, row, es, f);
    assert {e} + {x} + es == es;
    ThreeLoads(m, row, {e}, {x}, es, soon, late, late + 1.0);
    LoadablePart(m, row, es, {e});
    var mid := AfterLoad(m, row, {e}, soon);
    SteadyPhase(m, row, es);
    AlongStart(m, row, es);
    AlongStep(m, row, es, row, {e}, soon);
    AlongMode(m, row, es, mid);
    TimesAfter(m, row, {e}, soon);
    LoadableAfter(m, row, {e}, soon, es);
    OnlyDecider(e, f);
    assert Taken(m, row, {e}, f);
    LoadAt(m, row, {e}, soon, f);
    OwnAfter(m, row, {e}, soon, f);
    OnlyDecider(x, f);
    ShowsNext(m, row, mid, e, f, x, soon);
    assert Taken(m, mid, {x}, f);
    LoadablePart(m, mid, es, {x});
    LoadAt(m, mid, {x}, late, f);
    ShownPlainly(mid, x, f);
    LoudStirs(m, mid, es, x, f);
    ShutOut(m, row, mid, es, x, late, f);
  }

  /** A time between the row's last update and the recording of an event at the creation, if there is room. */
  lemma SoonEnough(row: Row, s: Stamp) returns (soon: real)
    ensures row.updatedAt < soon
    ensures AfterCreation(row, s) ==> Undying(s, Some(row.createdAt)) || (s.k1 == At(row.createdAt) && s.k2.At? && soon < s.k2.t)
  {
    soon := if s.k2.At? && row.updatedAt < s.k2.t then (row.updatedAt + s.k2.t) / 2.0 else row.updatedAt + 1.0;
  }

  lemma ShowsNext(m: Minter, row: Row, mid: Row, e: Event, f: Facet, x: Event, soon: real)
    requires ModeOf(m, mid) == Mixed && f.Field? && Own(mid, f).None? && mid.createdAt == row.createdAt && mid.updatedAt <= soon
    requires Blank(e.change) && ValueAt(mid.view, f) == Shown(row, e, f)
    requires f == Field(TYPE) ==> AfterCreation(row, x.stamp)
    requires AfterCreation(row, x.stamp) ==>
      Undying(x.stamp, Some(row.createdAt)) || (x.stamp.k1 == At(row.createdAt) && x.stamp.k2.At? && soon < x.stamp.k2.t)
    ensures Wins(m, mid, x, f)
  {
    hide ModeOf, Own, Le, AfterCreation, Undying;
    WinsOverBoth(m, mid, x, f);
    if f == Field(TYPE) {
      BeatsCreateAt(m, mid, x, soon);
    }
  }

  lemma BeatsCreateAt(m: Minter, mid: Row, x: Event, soon: real)
    requires mid.updatedAt <= soon
    requires Undying(x.stamp, Some(mid.createdAt)) || (x.stamp.k1 == At(mid.createdAt) && x.stamp.k2.At? && soon < x.stamp.k2.t)
    ensures !Le(x.stamp, MintedCreate(m, mid).stamp)
  {}

  /** Something else gets the row written first, and the minted create keeps the greatest event out. */
  lemma WrittenFirst(m: Minter, row: Row, es: set<Event>, f: Facet, y: Event) returns (a: seq<Load>, b: seq<Load>)
    requires WellFormed(row) && Loadable(m, row, es) && Steady(m, row, es) && ModeOf(m, row) == Mixed && Taken(m, row, es, f) && f.Field?
    requires !Undying(DeciderOf(es, f).stamp, Some(row.createdAt))
    requires y in es && Stirs(m, row, y) && (Touches(y.change, f) ==> f == Field(TYPE) && Blank(y.change))
    requires ValueAt(row.view, f) != Shown(row, DeciderOf(es, f), f) && ValueAt(row.view, f) != FieldIs(None)
    ensures Differs(m, row, es, f, a, b)
  {
    hide WellFormed, Loadable, AfterLoad, AfterLoads, ModeOf, Le, Splits, DeciderOf, Steady, ReadAt, Own, Along, Minted, Undying, Stirs, Touches, Blank, Shown;
    var t := DeciderOf(es, f);
    var late := LateEnough(m, row, t, row.updatedAt);
    a, b := [Load(es, row.updatedAt + 1.0)], [Load({y}, late), Load(es, late + 1.0)];
    Together(m, row, es, f);
    assert {y} + es == es;
    TwoLoads(m, row, {y}, es, late, late + 1.0);
    LoadAt(m, row, {y}, late, f);
    if Touches(y.change, f) {
      OnlyDecider(y, f);
      BlankTypeShows(row, y, f);
    } else {
      NotTouched(y, f);
    }
    SteadyPhase(m, row, es);
    AlongStart(m, row, es);
    ShutOut(m, row, row, es, y, late, f);
  }

  lemma FieldDiffers(m: Minter, row: Row, es: set<Event>, f: Facet) returns (a: seq<Load>, b: seq<Load>)
    requires WellFormed(row) && Loadable(m, row, es) && Steady(m, row, es) && ModeOf(m, row) == Mixed && Taken(m, row, es, f) && f.Field?
    requires var t := DeciderOf(es, f); Blank(t.change) || !Undying(t.stamp, Some(row.createdAt))
    requires !Harmless(m, row, es, f)
    ensures Differs(m, row, es, f, a, b)
  {
    hide WellFormed, Loadable, AfterLoads, ModeOf, Le, Splits, DeciderOf, Steady, ReadAt, Undying, Stirs, Touches, Blank, Wins, Loud;
    var t := DeciderOf(es, f);
    var final := Shown(row, t, f);
    if x :| Threat(m, row, es, f, x) && Says(x.change, f) != final {
      if Blank(t.change) && f != Field(TYPE) {
        BlankOrderMatters(m, row, es, f, x);
        a, b := [Load(es, row.updatedAt + 1.0)], [Load(es - {x}, row.updatedAt + 1.0), Load({x}, row.updatedAt + 2.0)];
      } else if Wins(m, row, x, f) {
        a, b := LoudFirst(m, row, es, f, x);
      } else {
        a, b := BlankFirst(m, row, es, f, x);
      }
    } else {
      var y :| y in es && Stirs(m, row, y) && (Touches(y.change, f) ==> f == Field(TYPE) && Blank(y.change));
      a, b := WrittenFirst(m, row, es, f, y);
    }
  }

  // ----- native values that do not settle -----

  /** A native value is beaten, but not for good: loaded with the other events its greatest rival wins; with some
      other event written first, late enough, the native value stays. */
  lemma NativeOrderMatters(m: Minter, row: Row, es: set<Event>, f: Facet, y: Event) returns (late: real)
    requires WellFormed(row) && Loadable(m, row, es) && Steady(m, row, es) && ModeOf(m, row) == Mixed
    requires Taken(m, row, es, f) && IsNative(row, f) && !Undying(DeciderOf(es, f).stamp, DateOf(row, f))
    requires y in es && Stirs(m, row, y) && !Touches(y.change, f)
    ensures var u := row.updatedAt; var a, b := [Load(es, u + 1.0)], [Load({y}, late), Load(es, late + 1.0)];
      && Splits(m, row, es, a) && Splits(m, row, es, b)
      && ValueAt(AfterLoads(m, row, a).view, f) == Says(DeciderOf(es, f).change, f)
      && ValueAt(AfterLoads(m, row, b).view, f) == ValueAt(row.view, f)
  {
    hide WellFormed, Loadable, AfterLoad, AfterLoads, ModeOf, Le, Splits, DeciderOf, Steady, ReadAt, Own, Along, Minted, Undying, Stirs, Touches, Blank, ValueAt;
    var t := DeciderOf(es, f);
    var past := MortalLoses(t.stamp, DateOf(row, f), row.updatedAt);
    late := past + 1.0;
    TakenOf(m, row, es, f);
    NativeIsPlain(row, f);
    BlankIsField(t.change, f);
    ShownPlainly(row, t, f);
    Together(m, row, es, f);
    assert {y} + es == es;
    TwoLoads(m, row, {y}, es, late, late + 1.0);
    NotTouched(y, f);
    LoadAt(m, row, {y}, late, f);
    OwnAfter(m, row, {y}, late, f);
    StirWrites(m, row, y, late);
    SteadyPhase(m, row, es);
    AlongStart(m, row, es);
    AlongStep(m, row, es, row, {y}, late);
    var mid := AfterLoad(m, row, {y}, late);
    AlongMode(m, row, es, mid);
    SameNative(row, mid, f);
    NativeOutlives(m, row, mid, f, t);
    LoadAt(m, mid, es, late + 1.0, f);
  }

  lemma NativeOutlives(m: Minter, row: Row, mid: Row, f: Facet, t: Event)
    requires ModeOf(m, mid) == Mixed && IsNative(mid, f) && SameTimes(row, mid)
    requires forall c :: Le(t.stamp, Minted(m, c, DateOf(row, f), mid.updatedAt).stamp)
    ensures !Wins(m, mid, t, f)
  {
    hide ModeOf, Own, Le, Minted, NativeChange;
    WinsOverBoth(m, mid, t, f);
    var c := NativeChange(mid, f).value;
    assert DateOf(mid, f) == DateOf(row, f);
    assert OwnIn(m, mid, Mixed, f) == Some(Minted(m, c, DateOf(row, f), mid.updatedAt));
  }

  // ----- exactly when -----

  lemma UnsettledDiffers(m: Minter, row: Row, es: set<Event>, f: Facet) returns (a: seq<Load>, b: seq<Load>)
    requires WellFormed(row) && Loadable(m, row, es) && Steady(m, row, es) && !Settles(m, row, es, f)
    ensures Differs(m, row, es, f, a, b)
  {
    hide WellFormed, Loadable, AfterLoads, ModeOf, Le, Splits, DeciderOf, Steady, Undying, Stirs, Touches, Blank, Loud, Harmless, Wins, ValueAt, IsNative;
    var t := DeciderOf(es, f);
    if ModeOf(m, row) == Stored {
      var x :| x in es && Loud(x, f);
      TakenOf(m, row, es, f);
      StoredBlankIsPlain(m, row, es, t, f);
      BlankOrderMatters(m, row, es, f, x);
      a, b := [Load(es, row.updatedAt + 1.0)], [Load(es - {x}, row.updatedAt + 1.0), Load({x}, row.updatedAt + 2.0)];
    } else {
      SteadyPhase(m, row, es);
      if f.Field? {
        a, b := FieldDiffers(m, row, es, f);
      } else {
        var y :| y in es && Stirs(m, row, y) && !Touches(y.change, f);
        var late := NativeOrderMatters(m, row, es, f, y);
        a, b := [Load(es, row.updatedAt + 1.0)], [Load({y}, late), Load(es, late + 1.0)];
      }
    }
  }

  /** Whatever the split, the order and the write times, the loads of these events end with the same row if
      and only if every facet settles. */
  lemma ConvergesIff(m: Minter, row: Row, es: set<Event>)
    requires WellFormed(row) && Loadable(m, row, es) && Steady(m, row, es)
    ensures OrderFree(m, row, es) <==> forall f :: Settles(m, row, es, f)
  {
    hide WellFormed, Loadable, Settles, Splits, AfterLoads, ValueAt, Steady, ModeOf;
    if forall f :: Settles(m, row, es, f) {
      forall a, b | Splits(m, row, es, a) && Splits(m, row, es, b) ensures AfterLoads(m, row, a).view == AfterLoads(m, row, b).view {
        forall f ensures ValueAt(AfterLoads(m, row, a).view, f) == ValueAt(AfterLoads(m, row, b).view, f) {
          SettledValue(m, row, es, a, f);
          SettledValue(m, row, es, b, f);
        }
        SameView(AfterLoads(m, row, a).view, AfterLoads(m, row, b).view);
      }
    } else {
      var f :| !Settles(m, row, es, f);
      var a, b := UnsettledDiffers(m, row, es, f);
    }
  }

  // ----- the greatest key -----

  /** A facet taken by an event that shows and cannot be outlived, or any facet of a row read from its stored events
      that nothing takes, ends with the greatest ordering key among what the row emitted and everything loaded. */
  lemma GreatestKeyDecides(m: Minter, row: Row, es: set<Event>, loads: seq<Load>, f: Facet)
    requires Splits(m, row, es, loads) && Steady(m, row, es) && ModeOf(m, row) != Unread
    requires if Taken(m, row, es, f) then !Blank(DeciderOf(es, f).change) && Timeless(m, row, es, f, DeciderOf(es, f))
             else ModeOf(m, row) == Stored
    ensures var row', all := AfterLoads(m, row, loads), Events(m, row) + es;
      && (ReadAt(m, row', f).Some? <==> Touched(all, f))
      && (ReadAt(m, row', f).Some? ==> Decides(all, f, ReadAt(m, row', f).value))
  {
    hide WellFormed, Loadable, AfterLoads, AllEvents, Splits, Touches, DeciderOf, Steady, ModeOf, Le, Timeless, Along, Decides, Events, Blank, Wins, Taken, ReadAt, DecidersOf;
    SplitsLoadable(m, row, es, loads);
    var row', out := AfterLoads(m, row, loads), Outcome(m, row, es);
    OutcomeAt(m, row, es, out, f);
    DecidersAt(Events(m, row) + es, out, f);
    if Taken(m, row, es, f) {
      TakenOf(m, row, es, f);
      GreatestHolds(m, row, loads, es, f);
    } else {
      AlongLoads(m, row, es, loads);
      ReadAgain(m, row, es, row', f);
    }
  }

  lemma ReadAgain(m: Minter, row: Row, es: set<Event>, mid: Row, f: Facet)
    requires Along(m, row, es, mid) && ModeOf(m, row) == Stored && !Taken(m, row, es, f)
    ensures ReadAt(m, mid, f) == ReadAt(m, row, f)
  {
    hide WellFormed, ModeOf, Own, Taken, ValueAt, Le, PhaseHeld;
    assert SameHold(m, row, mid, f);
  }

  /** Where a row is read from its stored events and none of the new ones sets a column to the empty text, the order
      of loads never matters, and each facet ends with the greatest ordering key. */
  lemma OrderDoesNotMatter(m: Minter, row: Row, es: set<Event>, loads: seq<Load>, f: Facet)
    requires Splits(m, row, es, loads) && ModeOf(m, row) == Stored && forall e :: e in es ==> !Blank(e.change)
    ensures OrderFree(m, row, es)
    ensures var row', all := AfterLoads(m, row, loads), Events(m, row) + es;
      && (ReadAt(m, row', f).Some? <==> Touched(all, f))
      && (ReadAt(m, row', f).Some? ==> Decides(all, f, ReadAt(m, row', f).value))
  {
    hide WellFormed, Loadable, AfterLoads, AllEvents, Splits, Touches, DeciderOf, ModeOf, Le, Decides, Events, Blank, Wins, ReadAt, NoneLoud;
    SplitsLoadable(m, row, es, loads);
    forall g ensures Settles(m, row, es, g) {
      if Taken(m, row, es, g) { TakenOf(m, row, es, g); }
    }
    ConvergesIff(m, row, es);
    if Taken(m, row, es, f) { TakenOf(m, row, es, f); }
    GreatestKeyDecides(m, row, es, loads, f);
  }
}
