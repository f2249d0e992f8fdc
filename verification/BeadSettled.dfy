/** Facets whose final value does not depend on how the events are split over loads. */
module BeadSettled {
  import opened Wrappers
  import opened BeadLog
  import opened BeadStore
  import opened BeadReader
  import opened BeadLoader
  import opened BeadConvergence
  import opened BeadFields

  /** However these events are split over loads, ordered and timed. */
  ghost predicate Splits(m: Minter, row: Row, es: set<Event>, loads: seq<Load>) {
    Loads(m, row, loads) && AllEvents(loads) == es
  }

  /** The events come to the same value of a facet in every order. That is so when they do not take it. Beside the
      stored create it is so when the greatest of them shows, or none of them does. Beside a minted create a field
      settles when its greatest event shows and is later than the creation for good, or no other value can come to
      show; and a native value when the greatest event beats it for good, nothing else gets the row written, or the
      event says the same. */
  ghost predicate Settles(m: Minter, row: Row, es: set<Event>, f: Facet) {
    ModeOf(m, row) != Unread && Taken(m, row, es, f) ==>
      var t := DeciderOf(es, f);
      if ModeOf(m, row) == Stored then !Blank(t.change) || NoneLoud(es, f)
      else if f.Field? then (!Blank(t.change) && Undying(t.stamp, Some(row.createdAt))) || Harmless(m, row, es, f)
      else
        IsNative(row, f) ==>
          Undying(t.stamp, DateOf(row, f)) || OthersStill(m, row, es, f) || Says(t.change, f) == ValueAt(row.view, f)
  }

  /** The value the events then come to. */
  ghost function FinalValue(m: Minter, row: Row, es: set<Event>, f: Facet): FacetValue {
    if ModeOf(m, row) != Unread && Taken(m, row, es, f) then Shown(row, DeciderOf(es, f), f) else ValueAt(row.view, f)
  }

  // ----- settled facets -----

  lemma HoldsShows(m: Minter, row: Row, f: Facet, e: Event)
    requires Holds(m, row, f, e)
    ensures ValueAt(row.view, f) == Says(e.change, f)
  {}

  lemma {:induction false} UnreadAlways(m: Minter, row: Row, loads: seq<Load>)
    requires ModeOf(m, row) == Unread
    ensures AfterLoads(m, row, loads) == row
    decreases |loads|
  {
    hide ModeOf, AfterLoad;
    if loads != [] {
      UnreadAlways(m, row, loads[..|loads| - 1]);
      UnreadStays(m, row, loads[|loads| - 1].batch, loads[|loads| - 1].now);
    }
  }

  lemma SplitsLoadable(m: Minter, row: Row, es: set<Event>, loads: seq<Load>)
    requires Splits(m, row, es, loads)
    ensures Loads(m, row, loads) && AllEvents(loads) == es && Loadable(m, row, es) && WellFormed(row)
  {
    hide WellFormed, Loadable;
  }

  /** Where a facet settles, every split of the events ends with its final value. */
  lemma SettledValue(m: Minter, row: Row, es: set<Event>, loads: seq<Load>, f: Facet)
    requires Splits(m, row, es, loads) && Steady(m, row, es) && Settles(m, row, es, f)
    ensures ValueAt(AfterLoads(m, row, loads).view, f) == FinalValue(m, row, es, f)
  {
    hide WellFormed, ModeOf, Le, Loadable, Touches, DeciderOf, Steady, Wins, AfterLoads, Splits, Loads, AllEvents, Harmless, OthersStill, NoneLoud, Undying, Holds, OnCourse, Along, Shown, Blank, ValueAt;
    SplitsLoadable(m, row, es, loads);
    if ModeOf(m, row) == Unread {
      UnreadAlways(m, row, loads);
    } else if !Taken(m, row, es, f) {
      AlongLoads(m, row, es, loads);
      UntakenKept(m, row, es, AfterLoads(m, row, loads), f);
    } else if ModeOf(m, row) == Stored {
      SettledStored(m, row, es, loads, f);
    } else {
      SteadyPhase(m, row, es);
      if f.Field? {
        SettledField(m, row, es, loads, f);
      } else {
        SettledOther(m, row, es, loads, f);
      }
    }
  }

  lemma UntakenKept(m: Minter, row: Row, es: set<Event>, mid: Row, f: Facet)
    requires Along(m, row, es, mid) && !Taken(m, row, es, f)
    ensures ValueAt(mid.view, f) == ValueAt(row.view, f)
  {
    hide WellFormed, ModeOf, Taken, PhaseHeld, ReadAt, Own, ValueAt;
    assert SameHold(m, row, mid, f);
  }

  lemma ShownPlainly(row: Row, e: Event, f: Facet)
    ensures !Blank(e.change) ==> Shown(row, e, f) == Says(e.change, f)
    ensures Blank(e.change) && f != Field(TYPE) ==> Shown(row, e, f) == FieldIs(None)
  {}

  lemma HeldInTheEnd(m: Minter, row: Row, es: set<Event>, loads: seq<Load>, f: Facet)
    requires Splits(m, row, es, loads) && Steady(m, row, es) && ModeOf(m, row) != Unread
    requires Taken(m, row, es, f) && !Blank(DeciderOf(es, f).change) && Timeless(m, row, es, f, DeciderOf(es, f))
    ensures ValueAt(AfterLoads(m, row, loads).view, f) == Shown(row, DeciderOf(es, f), f)
  {
    hide WellFormed, ModeOf, Le, Loadable, Touches, Steady, Taken, AfterLoads, Splits, Loads, AllEvents, Timeless, Holds, Blank, Shown;
    SplitsLoadable(m, row, es, loads);
    TakenOf(m, row, es, f);
    GreatestHolds(m, row, loads, es, f);
    HoldsShows(m, AfterLoads(m, row, loads), f, DeciderOf(es, f));
    ShownPlainly(row, DeciderOf(es, f), f);
  }

  lemma SettledStored(m: Minter, row: Row, es: set<Event>, loads: seq<Load>, f: Facet)
    requires Splits(m, row, es, loads) && Steady(m, row, es) && ModeOf(m, row) == Stored && Taken(m, row, es, f)
    requires !Blank(DeciderOf(es, f).change) || NoneLoud(es, f)
    ensures ValueAt(AfterLoads(m, row, loads).view, f) == Shown(row, DeciderOf(es, f), f)
  {
    hide WellFormed, ModeOf, Le, Loadable, Touches, Steady, AfterLoads, Splits, Loads, AllEvents, NoneLoud, Blank, Shown, Wins;
    SplitsLoadable(m, row, es, loads);
    TakenOf(m, row, es, f);
    if !Blank(DeciderOf(es, f).change) {
      HeldInTheEnd(m, row, es, loads, f);
    } else {
      StoredBlankIsPlain(m, row, es, DeciderOf(es, f), f);
      BlankedStays(m, row, loads, es, f);
      ShownPlainly(row, DeciderOf(es, f), f);
    }
  }

  lemma SettledField(m: Minter, row: Row, es: set<Event>, loads: seq<Load>, f: Facet)
    requires Splits(m, row, es, loads) && Steady(m, row, es) && ModeOf(m, row) == Mixed && Taken(m, row, es, f) && f.Field?
    requires (!Blank(DeciderOf(es, f).change) && Undying(DeciderOf(es, f).stamp, Some(row.createdAt))) || Harmless(m, row, es, f)
    ensures ValueAt(AfterLoads(m, row, loads).view, f) == Shown(row, DeciderOf(es, f), f)
  {
    hide WellFormed, ModeOf, Le, Loadable, Touches, Steady, AfterLoads, Splits, Loads, AllEvents, Blank, Shown, Wins, Harmless, NotLower, Undying;
    SplitsLoadable(m, row, es, loads);
    TakenOf(m, row, es, f);
    if !Blank(DeciderOf(es, f).change) && Undying(DeciderOf(es, f).stamp, Some(row.createdAt)) {
      HeldInTheEnd(m, row, es, loads, f);
    } else {
      StaysOnCourse(m, row, loads, es, f);
    }
  }

  lemma SettledOther(m: Minter, row: Row, es: set<Event>, loads: seq<Load>, f: Facet)
    requires Splits(m, row, es, loads) && Steady(m, row, es) && ModeOf(m, row) == Mixed && Taken(m, row, es, f) && !f.Field?
    requires IsNative(row, f) ==>
      || Undying(DeciderOf(es, f).stamp, DateOf(row, f)) || OthersStill(m, row, es, f)
      || Says(DeciderOf(es, f).change, f) == ValueAt(row.view, f)
    ensures ValueAt(AfterLoads(m, row, loads).view, f) == Shown(row, DeciderOf(es, f), f)
  {
    hide WellFormed, ModeOf, Le, Loadable, Touches, Steady, AfterLoads, Splits, Loads, AllEvents, Shown, Wins, Undying, OthersStill, IsNative, Own, Holds;
    var t := DeciderOf(es, f);
    SplitsLoadable(m, row, es, loads);
    TakenOf(m, row, es, f);
    BlankIsField(t.change, f);
    ShownPlainly(row, t, f);
    if IsNative(row, f) {
      NativeTimeless(m, row, es, f, t);
      if Undying(t.stamp, DateOf(row, f)) || OthersStill(m, row, es, f) {
        HeldInTheEnd(m, row, es, loads, f);
      } else {
        OneOrOther(m, row, loads, es, f);
        NativeEitherWay(m, row, AfterLoads(m, row, loads), f, t, true);
      }
    } else if f == Phase && !Undying(t.stamp, Some(row.createdAt)) {
      OpenPhase(m, row, es);
      PhaseStaysOpen(m, row, loads, es);
    } else {
      HeldInTheEnd(m, row, es, loads, f);
    }
  }

  lemma NativeEitherWay(m: Minter, row: Row, mid: Row, f: Facet, t: Event, seen: bool)
    requires OneOrOtherAt(m, row, mid, f, t, seen) && seen && Says(t.change, f) == ValueAt(row.view, f)
    ensures ValueAt(mid.view, f) == ValueAt(row.view, f)
  {
    hide ReadAt, ModeOf, Le;
  }

  /** An event that takes the phase, but can be outlived by the creation, takes it from an open one and says open. */
  lemma OpenPhase(m: Minter, row: Row, es: set<Event>)
    requires Steady(m, row, es) && ModeOf(m, row) == Mixed && Loadable(m, row, es) && Taken(m, row, es, Phase)
    requires !IsNative(row, Phase) && !Undying(DeciderOf(es, Phase).stamp, Some(row.createdAt))
    ensures row.view.status == "open" && Says(DeciderOf(es, Phase).change, Phase) == Stands("open")
  {
    hide ModeOf, Le, Touches, Undying, Taken, Loadable;
    var t := DeciderOf(es, Phase);
    TakenOf(m, row, es, Phase);
    TouchesPhase(m, row);
    CreateBeaten(m, row, Phase);
    LeTotal(t.stamp, t.stamp);
    SaysOpen(m, row, row, es, t, t);
    WinsOverBoth(m, row, t, Phase);
    if row.view.status != "open" {
      var own := Own(row, Phase).value;
      LeTotal(own.stamp, t.stamp);
      UndyingUp(own.stamp, t.stamp, Some(row.createdAt));
    }
  }

  // ----- one, two and three loads -----

  lemma OneLoad(m: Minter, row: Row, es: set<Event>, now: real)
    requires WellFormed(row) && Loadable(m, row, es) && row.updatedAt < now
    ensures Splits(m, row, es, [Load(es, now)]) && AfterLoads(m, row, [Load(es, now)]) == AfterLoad(m, row, es, now)
  {
    hide WellFormed, Loadable, AfterLoad;
    var loads := [Load(es, now)];
    assert loads[..0] == [];
    assert AllEvents(loads) == es;
    assert AfterLoads(m, row, loads[..0]) == row;
  }

  /** Another load after some. */
  lemma OneMore(m: Minter, row: Row, loads: seq<Load>, batch: set<Event>, now: real, es: set<Event>)
    requires Loads(m, row, loads) && Loadable(m, row, es) && AllEvents(loads) + batch == es && row.updatedAt < now
    requires forall i :: 0 <= i < |loads| ==> loads[i].now < now
    ensures var more := loads + [Load(batch, now)];
      Splits(m, row, es, more) && AfterLoads(m, row, more) == AfterLoad(m, AfterLoads(m, row, loads), batch, now)
    ensures Loadable(m, AfterLoads(m, row, loads), es) && WellFormed(AfterLoads(m, row, loads))
    ensures AfterLoads(m, row, loads).updatedAt < now
  {
    hide WellFormed, Loadable, AfterLoad;
    var more := loads + [Load(batch, now)];
    assert more[..|more| - 1] == loads;
    assert AllEvents(more) == es;
    LoadsProgress(m, row, loads, es);
  }

  lemma TwoLoads(m: Minter, row: Row, a: set<Event>, b: set<Event>, first: real, second: real)
    requires WellFormed(row) && Loadable(m, row, a + b) && row.updatedAt < first < second
    ensures var mid := AfterLoad(m, row, a, first); var loads := [Load(a, first), Load(b, second)];
      && Splits(m, row, a + b, loads) && AfterLoads(m, row, loads) == AfterLoad(m, mid, b, second)
      && Loadable(m, row, a) && WellFormed(mid) && Loadable(m, mid, a + b) && Loadable(m, mid, b) && mid.updatedAt < second
  {
    hide WellFormed, Loadable, AfterLoad, AfterLoads, AllEvents;
    LoadablePart(m, row, a + b, a);
    OneLoad(m, row, a, first);
    OneMore(m, row, [Load(a, first)], b, second, a + b);
    LoadablePart(m, AfterLoad(m, row, a, first), a + b, b);
    assert [Load(a, first)] + [Load(b, second)] == [Load(a, first), Load(b, second)];
  }

  lemma ThreeLoads(m: Minter, row: Row, a: set<Event>, b: set<Event>, c: set<Event>, first: real, second: real, third: real)
    requires WellFormed(row) && Loadable(m, row, a + b + c) && row.updatedAt < first < second < third
    ensures var mid := AfterLoad(m, AfterLoad(m, row, a, first), b, second); var loads := [Load(a, first), Load(b, second), Load(c, third)];
      && Splits(m, row, a + b + c, loads) && AfterLoads(m, row, loads) == AfterLoad(m, mid, c, third)
      && WellFormed(mid) && Loadable(m, mid, a + b + c)
  {
    hide WellFormed, Loadable, AfterLoad, AfterLoads, AllEvents;
    LoadablePart(m, row, a + b + c, a + b);
    TwoLoads(m, row, a, b, first, second);
    OneMore(m, row, [Load(a, first), Load(b, second)], c, third, a + b + c);
    assert [Load(a, first), Load(b, second)] + [Load(c, third)] == [Load(a, first), Load(b, second), Load(c, third)];
  }

  lemma OnlyDecider(x: Event, f: Facet)
    requires Touches(x.change, f)
    ensures Touched({x}, f) && DeciderOf({x}, f) == x
  {
    hide Le, Touches;
    assert x in {x};
  }

  lemma NotTouched(x: Event, f: Facet)
    requires !Touches(x.change, f)
    ensures !Touched({x}, f)
  {}

  // ----- events that get the row written -----

  lemma PlanHas(was: BeadState, now: BeadState, n: FieldName)
    requires Changed(was.fields, now.fields, n) && (n.Column? ==> CanWrite(n.name, Look(now.fields, n)))
    ensures !IsEmpty(Diff(was, now))
  {
    hide CanWrite;
    var p := Diff(was, now);
    if n.Column? {
      assert n.name in p.columns;
    } else if n in now.fields {
      assert n.name in p.meta;
    } else {
      assert n.name in p.unset;
    }
  }

  /** A facet whose value the taking event changes makes the plan write, unless it is a type set to the empty text. */
  lemma ChangeIsPlanned(m: Minter, row: Row, batch: set<Event>, f: Facet)
    requires WellFormed(row) && Loadable(m, row, batch) && ModeOf(m, row) != Unread && Taken(m, row, batch, f)
    requires var t := DeciderOf(batch, f); Says(t.change, f) != ValueAt(row.view, f) && !(f == Field(TYPE) && Blank(t.change))
    ensures !IsEmpty(PlanFor(m, row, Outcome(m, row, batch)))
  {
    hide WellFormed, Le, Touches, Loadable, Taken, Base, DecidersOf, IsEmpty, Diff, DeciderOf, ReadAt, Events, ModeOf, StateAt, CanWrite, Blank, Executed;
    var out := Outcome(m, row, batch);
    var was, now := StateAt(Base(m, row)), StateAt(out);
    TakenOf(m, row, batch, f);
    OutcomeAt(m, row, batch, out, f);
    BaseShows(m, row);
    StateShows(out, f);
    if f.Field? {
      CanBeWritten(DeciderOf(batch, f).change, f.at);
      PlanHas(was, now, f.at);
    } else {
      PlanShows(was, now, f);
      if IsEmpty(Diff(was, now)) {
        EmptyPlan(ViewOf(was), Diff(was, now));
      }
    }
  }

  lemma CanBeWritten(c: Change, n: FieldName)
    requires Acceptable(c) && Touches(c, Field(n)) && !(n == TYPE && Blank(c))
    ensures n.Column? ==> CanWrite(n.name, FieldIn(c, n))
  {}

  /** An event that stirs gets the row written, with its time. */
  lemma StirWrites(m: Minter, row: Row, y: Event, now: real)
    requires WellFormed(row) && Loadable(m, row, {y}) && Stirs(m, row, y)
    requires ModeOf(m, row) == Stored || ModeOf(m, row) == Mixed
    ensures AfterLoad(m, row, {y}, now).updatedAt == now
  {
    hide WellFormed, Le, DeciderOf, Loadable, DecidersOf, PlanFor, IsEmpty, Wins, Updated, Blank, ModeOf, Own, ValueAt;
    var h, out := FacetOf(y.change), Outcome(m, row, {y});
    OnlyDecider(y, h);
    assert Taken(m, row, {y}, h);
    TakenOf(m, row, {y}, h);
    AcceptableIsSingle(y.change, h);
    OutcomeAt(m, row, {y}, out, h);
    if h in row.document && row.document[h] == y {
      if Own(row, h) == Some(y) {
        OwnStays(m, row, h, y);
      } else {
        NotOwn(row, h, y);
        ChangeIsPlanned(m, row, {y}, h);
      }
    } else {
      NewEntry(m, row, out, y, h);
    }
  }

  lemma NotOwn(row: Row, h: Facet, y: Event)
    requires h in row.document && row.document[h] == y && Own(row, h) != Some(y) && h != Exists
    ensures Says(y.change, h) != ValueAt(row.view, h)
  {}

  lemma OwnStays(m: Minter, row: Row, f: Facet, y: Event)
    requires Own(row, f) == Some(y) && (ModeOf(m, row) == Stored || ModeOf(m, row) == Mixed)
    ensures !Wins(m, row, y, f)
  {
    hide ModeOf, Le, Own, CreateIn;
    LeTotal(y.stamp, y.stamp);
    WinsOverBoth(m, row, y, f);
  }

  lemma NewEntry(m: Minter, row: Row, out: map<Facet, Event>, y: Event, h: Facet)
    requires h in out && out[h] == y && y !in Events(m, row) && KeyOf(y.change) == Some(h)
    requires !(h in row.document && row.document[h] == y)
    ensures Updated(m, row, out) != row.document
  {
    hide Events;
    assert h in Updated(m, row, out) && Updated(m, row, out)[h] == y;
  }
}
