/** Events later than the creation: the order of their loads does not matter, even where a load changes how the row
    is read. */
module BeadLate {
  import opened Wrappers
  import opened BeadLog
  import opened BeadStore
  import opened BeadReader
  import opened BeadLoader
  import opened BeadConvergence
  import opened BeadSettled
  import opened BeadOrder

  /** Read from its stored events or with a minted create, and with the latter its phase would hold as well. */
  predicate Readable(m: Minter, row: Row) {
    WellFormed(row) && PhaseHeld(row) && (ModeOf(m, row) == Stored || ModeOf(m, row) == Mixed)
  }

  /** Shows in bd, and beats every create and every native value of the row for good. */
  predicate LateEvent(row: Row, x: Event) {
    && !Blank(x.change) && Undying(x.stamp, Some(row.createdAt))
    && (Born(row).Some? ==> !Le(x.stamp, Born(row).value.stamp))
    && (Single(x.change) && IsNative(row, FacetOf(x.change)) ==> Undying(x.stamp, DateOf(row, FacetOf(x.change))))
  }

  ghost predicate AllLate(row: Row, es: set<Event>) {
    forall x :: x in es ==> LateEvent(row, x)
  }

  /** Beats the facet's own event. */
  predicate BeatsOwn(row: Row, x: Event, f: Facet) {
    Own(row, f).Some? ==> !Le(x.stamp, Own(row, f).value.stamp)
  }

  /** A row on the way. */
  ghost predicate LateAlong(m: Minter, row: Row, mid: Row) {
    Readable(m, mid) && SameTimes(row, mid) && forall f :: IsNative(mid, f) ==> IsNative(row, f)
  }

  /** However the row is read, a late event only has the facet's own event to beat. */
  lemma LateWins(m: Minter, row: Row, mid: Row, x: Event, f: Facet)
    requires LateAlong(m, row, mid) && LateEvent(row, x) && Acceptable(x.change) && Touches(x.change, f)
    ensures Wins(m, mid, x, f) <==> BeatsOwn(mid, x, f)
  {
    hide WellFormed, ModeOf, Le, PhaseHeld, Own, Acceptable, Undying, Minted, NativeChange;
    AcceptableIsSingle(x.change, f);
    NotExistence(x.change, f);
    WinsOverBoth(m, mid, x, f);
    UndyingWins(m, x.stamp, Create(mid.view.fields), Some(row.createdAt), mid.updatedAt);
    if IsNative(mid, f) {
      assert DateOf(mid, f) == DateOf(row, f);
      UndyingWins(m, x.stamp, NativeChange(mid, f).value, DateOf(row, f), mid.updatedAt);
    }
  }

  lemma AlwaysMixed(m: Minter, row: Row)
    requires WellFormed(row) && PhaseHeld(row)
    ensures Readable(m, row)
  {
    hide WellFormed, PhaseHeld, ReadIn, ValueAt, Tells, Explains;
    forall f ensures Tells(ReadIn(m, row, Mixed, f), f) == ValueAt(row.view, f) {
      MixedReads(m, row, f);
    }
    ExplainsAll(m, row, Mixed);
  }

  lemma LateStep(m: Minter, row: Row, mid: Row, batch: set<Event>, now: real)
    requires LateAlong(m, row, mid) && AllLate(row, batch) && Loadable(m, mid, batch) && mid.updatedAt < now
    ensures LateAlong(m, row, AfterLoad(m, mid, batch, now))
  {
    hide WellFormed, ModeOf, PhaseHeld, Own, Loadable, AfterLoad, IsNative, AllLate;
    var row' := AfterLoad(m, mid, batch, now);
    LoadKeepsWellFormed(m, mid, batch, now);
    TimesAfter(m, mid, batch, now);
    LatePhase(m, row, mid, batch, now);
    AlwaysMixed(m, row');
    forall f | IsNative(row', f) ensures IsNative(mid, f) {
      if Taken(m, mid, batch, f) {
        OwnIsNotNative(m, mid, batch, now, f);
      }
      LoadAt(m, mid, batch, now, f);
      OwnAfter(m, mid, batch, now, f);
      SameNative(mid, row', f);
    }
  }

  lemma LatePhase(m: Minter, row: Row, mid: Row, batch: set<Event>, now: real)
    requires LateAlong(m, row, mid) && AllLate(row, batch) && Loadable(m, mid, batch) && mid.updatedAt < now
    ensures PhaseHeld(AfterLoad(m, mid, batch, now))
  {
    hide WellFormed, ModeOf, Own, Loadable, AfterLoad, IsNative, Le, Touches, DeciderOf, Undying;
    LoadAt(m, mid, batch, now, Phase);
    OwnAfter(m, mid, batch, now, Phase);
    TimesAfter(m, mid, batch, now);
    if Taken(m, mid, batch, Phase) {
      TakenOf(m, mid, batch, Phase);
      assert LateEvent(row, DeciderOf(batch, Phase));
    }
  }

  lemma {:induction false} LateLoads(m: Minter, row: Row, loads: seq<Load>)
    requires Loads(m, row, loads) && Readable(m, row) && AllLate(row, AllEvents(loads))
    ensures LateAlong(m, row, AfterLoads(m, row, loads))
    decreases |loads|
  {
    hide WellFormed, ModeOf, PhaseHeld, Loadable, AfterLoad, IsNative, LateEvent;
    if loads != [] {
      var short, mid, last := LastLoad(m, row, loads);
      LateLoads(m, row, short);
      LateStep(m, row, mid, last.batch, last.now);
    }
  }

  /** The value late events come to: that of the greatest, if it beats the facet's own event. */
  ghost predicate LateAt(row: Row, mid: Row, es: set<Event>, f: Facet, seen: set<Event>) {
    if Touched(es, f) && BeatsOwn(row, DeciderOf(es, f), f) then
      var t := DeciderOf(es, f);
      if t in seen then Own(mid, f) == Some(t) && ValueAt(mid.view, f) == Says(t.change, f) else BeatsOwn(mid, t, f)
    else Own(mid, f) == Own(row, f) && ValueAt(mid.view, f) == ValueAt(row.view, f)
  }

  /** A load takes a facet when its greatest event beats the facet's own, which it then becomes. */
  lemma LateTaken(m: Minter, row: Row, mid: Row, batch: set<Event>, now: real, f: Facet)
    requires LateAlong(m, row, mid) && AllLate(row, batch) && Loadable(m, mid, batch) && mid.updatedAt < now
    ensures var row' := AfterLoad(m, mid, batch, now);
      if Touched(batch, f) && BeatsOwn(mid, DeciderOf(batch, f), f) then
        Own(row', f) == Some(DeciderOf(batch, f)) && ValueAt(row'.view, f) == Says(DeciderOf(batch, f).change, f)
      else Own(row', f) == Own(mid, f) && ValueAt(row'.view, f) == ValueAt(mid.view, f)
  {
    hide WellFormed, ModeOf, Own, Loadable, AfterLoad, IsNative, Le, Touches, DeciderOf, Undying, SameTimes, ValueAt, Wins, PhaseHeld, Blank, BeatsOwn, Shown;
    LoadAt(m, mid, batch, now, f);
    OwnAfter(m, mid, batch, now, f);
    if Touched(batch, f) {
      var x := DeciderOf(batch, f);
      AcceptableGreatest(m, mid, batch, f);
      assert LateEvent(row, x);
      LateWins(m, row, mid, x, f);
      ShownPlainly(mid, x, f);
    }
  }

  lemma LateAtStep(m: Minter, row: Row, mid: Row, batch: set<Event>, now: real, es: set<Event>, f: Facet, seen: set<Event>)
    requires LateAlong(m, row, mid) && AllLate(row, es) && Loadable(m, row, es) && batch <= es
    requires Loadable(m, mid, batch) && mid.updatedAt < now && LateAt(row, mid, es, f, seen)
    ensures LateAt(row, AfterLoad(m, mid, batch, now), es, f, seen + batch)
  {
    hide LateAlong, Own, Loadable, AfterLoad, Le, Touches, DeciderOf, ValueAt, LateEvent;
    LateTaken(m, row, mid, batch, now, f);
    if Touched(batch, f) {
      var x, t := DeciderOf(batch, f), DeciderOf(es, f);
      AcceptableGreatest(m, row, es, f);
      LesserOfPart(es, batch, f);
      LeTotal(t.stamp, t.stamp);
      if Own(mid, f).Some? && Le(t.stamp, Own(mid, f).value.stamp) {
        LeTransitive(x.stamp, t.stamp, Own(mid, f).value.stamp);
      }
      if t in batch {
        GreatestOfPart(es, batch, f);
      }
    } else if Touched(es, f) {
      NotAmong(es, batch, f);
    }
  }

  lemma NotAmong(es: set<Event>, batch: set<Event>, f: Facet)
    requires Touched(es, f) && !Touched(batch, f)
    ensures DeciderOf(es, f) !in batch
  {
    hide Le, Touches;
  }

  lemma {:induction false} LateValue(m: Minter, row: Row, loads: seq<Load>, es: set<Event>, f: Facet)
    requires Loads(m, row, loads) && AllEvents(loads) <= es && Loadable(m, row, es) && Readable(m, row) && AllLate(row, es)
    ensures LateAt(row, AfterLoads(m, row, loads), es, f, AllEvents(loads))
    decreases |loads|
  {
    hide WellFormed, ModeOf, Own, Loadable, AfterLoad, LateEvent, ValueAt, Readable, LateAlong, Touches, DeciderOf, Le;
    if loads != [] {
      var short, mid, last := LastLoad(m, row, loads);
      LateValue(m, row, short, es, f);
      LateLoads(m, row, short);
      LateAtStep(m, row, mid, last.batch, last.now, es, f, AllEvents(short));
    }
  }

  ghost function LateFinal(row: Row, es: set<Event>, f: Facet): FacetValue {
    if Touched(es, f) && BeatsOwn(row, DeciderOf(es, f), f) then Says(DeciderOf(es, f).change, f) else ValueAt(row.view, f)
  }

  /** Events that show and are later than the creation, the stored create and the native values they touch: even
      where a load changes how the row is read, each facet ends with the greatest ordering key among its own event
      and everything loaded. */
  lemma LateEnd(m: Minter, row: Row, es: set<Event>, loads: seq<Load>, f: Facet)
    requires Splits(m, row, es, loads) && Readable(m, row) && AllLate(row, es)
    ensures ValueAt(AfterLoads(m, row, loads).view, f) == LateFinal(row, es, f)
  {
    hide WellFormed, Own, Loadable, LateEvent, ValueAt, Readable, AfterLoads, AllEvents, Splits, BeatsOwn, DeciderOf;
    SplitsLoadable(m, row, es, loads);
    LateValue(m, row, loads, es, f);
    GreatestIn(es, f);
  }

  /** The order of their loads does not matter. */
  lemma LateOrderDoesNotMatter(m: Minter, row: Row, es: set<Event>)
    requires Readable(m, row) && AllLate(row, es)
    ensures OrderFree(m, row, es)
  {
    hide LateEvent, ValueAt, Readable, AfterLoads, Splits, LateFinal;
    forall a, b | Splits(m, row, es, a) && Splits(m, row, es, b) ensures AfterLoads(m, row, a).view == AfterLoads(m, row, b).view {
      forall f ensures ValueAt(AfterLoads(m, row, a).view, f) == ValueAt(AfterLoads(m, row, b).view, f) {
        LateEnd(m, row, es, a, f);
        LateEnd(m, row, es, b, f);
      }
      SameView(AfterLoads(m, row, a).view, AfterLoads(m, row, b).view);
    }
  }

  lemma GreatestIn(es: set<Event>, f: Facet)
    ensures Touched(es, f) ==> DeciderOf(es, f) in es
  {
    hide Le, Touches;
  }
}
