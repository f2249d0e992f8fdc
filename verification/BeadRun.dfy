/** One load carried out: decide, sort the batch into kept and superseded, write the difference. Also
    the read cache the continuous backfill puts in front of the port. */
module BeadRun {
  import opened Wrappers
  import opened BeadLog
  import opened BeadStore
  import opened BeadReader
  import opened BeadLoader
  import opened BeadConvergence
  import opened BeadAgain

  /** Events of the batch a later event of their facet beats; bd keeps current state only. */
  ghost predicate IsSuperseded(m: Minter, row: Row, batch: set<Event>, e: Event) {
    && e in batch && e !in Events(m, row) && Single(e.change)
    && !Decides(Events(m, row) + batch, FacetOf(e.change), e)
  }

  /** What the row emits and an acceptable batch hold no checkpoints. */
  lemma NoCheckpoints(m: Minter, row: Row, batch: set<Event>)
    requires WellFormed(row) && forall e :: e in batch ==> Acceptable(e.change)
    ensures forall e :: e in Events(m, row) + batch ==> !e.change.Checkpoint?
  {
    hide WellFormed, Events, Acceptable;
    forall e | e in Events(m, row) ensures !e.change.Checkpoint? {
      EmittedKind(m, row, e);
    }
    forall e | e in batch ensures !e.change.Checkpoint? {
      AcceptableIsSingle(e.change, Exists);
    }
  }

  method DecideLoad(m: Minter, row: Row, batch: set<Event>) returns (out: map<Facet, Event>)
    requires WellFormed(row) && Loadable(m, row, batch)
    ensures out == Outcome(m, row, batch) && DecidersOf(Events(m, row) + batch, out)
  {
    hide WellFormed, Touches, Le, Touched, Decides, DecidersOf, DecidersAndVouchers, Events, Identified, MintsApart;
    out := Deciders(Events(m, row) + batch);
    NoCheckpoints(m, row, batch);
    NoVouchers(Events(m, row) + batch, out);
    LoadableIdentified(m, row, batch);
    DecidersUnique(Events(m, row) + batch, out, DeciderMap(Events(m, row) + batch));
  }

  /** Load a batch into a bead of the store, or only assess it. A row that cannot be read back has no create to load
      into, and misses the whole batch. Otherwise every event is already stored, kept, or superseded. A dry run sorts
      them as the apply does. */
  method LoadBead(m: Minter, port: BdPort, row: Row, batch: set<Event>, now: real, dryRun: bool)
    returns (row': Row, missing: bool, kept: set<Event>, superseded: set<Event>)
    requires WellFormed(row) && Loadable(m, row, batch) && row.updatedAt < now && port.Current() == row.view
    modifies port
    ensures row' == (if dryRun then row else AfterLoad(m, row, batch, now)) && port.Current() == row'.view
    ensures missing <==> ModeOf(m, row) == Unread
    ensures missing ==> kept == superseded == {}
    ensures !missing ==> forall e :: e in superseded <==> IsSuperseded(m, row, batch, e)
    ensures !missing ==> forall e :: e in kept <==> e in batch && e !in Events(m, row) && !IsSuperseded(m, row, batch, e)
    ensures forall e :: e in kept ==>
      && Single(e.change) && FacetOf(e.change) in AfterLoad(m, row, batch, now).document
      && AfterLoad(m, row, batch, now).document[FacetOf(e.change)] == e
    ensures !missing ==> kept !! superseded && |batch| == |kept| + |superseded| + |batch * Events(m, row)|
  {
    hide Touches, Le, StateAt, Executed, Diff, WellFormed, Loadable, DecidersOf, IsSuperseded, Base, Updated, Decides, Writes, IsEmpty, Events, ModeOf;
    row', missing, kept, superseded := row, ModeOf(m, row) == Unread, {}, {};
    if missing {
      UnreadStays(m, row, batch, now);
      return;
    }
    var out := DecideLoad(m, row, batch);
    kept, superseded := SortBatch(m, row, batch, out);
    forall e | e in kept
      ensures FacetOf(e.change) in AfterLoad(m, row, batch, now).document
      ensures AfterLoad(m, row, batch, now).document[FacetOf(e.change)] == e
    {
      AcceptedKey(m, row, batch, e);
      KeptIsStored(m, row, out, now, e, FacetOf(e.change));
    }
    if !dryRun {
      row' := AfterDeciding(m, row, out, now);
      if Writes(m, row, out) {
        CloseIsExclusive(StateAt(Base(m, row)), StateAt(out));
        Write(port, PlanFor(m, row, out));
      }
    }
  }

  lemma AcceptedKey(m: Minter, row: Row, batch: set<Event>, e: Event)
    requires Loadable(m, row, batch) && e in batch && Single(e.change)
    ensures KeyOf(e.change) == Some(FacetOf(e.change))
  {
    hide Identified, MintsApart;
    AcceptableIsSingle(e.change, FacetOf(e.change));
  }

  /** Sort a batch by whether each new event decides its facet. */
  method SortBatch(m: Minter, row: Row, batch: set<Event>, out: map<Facet, Event>) returns (kept: set<Event>, superseded: set<Event>)
    requires WellFormed(row) && Loadable(m, row, batch) && DecidersOf(Events(m, row) + batch, out)
    ensures forall e :: e in superseded <==> IsSuperseded(m, row, batch, e)
    ensures forall e :: e in kept <==> e in batch && e !in Events(m, row) && !IsSuperseded(m, row, batch, e)
    ensures forall e :: e in kept ==> Single(e.change) && FacetOf(e.change) in out && out[FacetOf(e.change)] == e
    ensures kept !! superseded && |batch| == |kept| + |superseded| + |batch * Events(m, row)|
  {
    hide Touches, Le, Touched, Loadable, DecidersOf, Decides, Events;
    kept, superseded := {}, {};
    var left := batch;
    while left != {}
      invariant left <= batch && kept !! superseded && (kept + superseded) !! left
      invariant forall e :: e in superseded <==> e !in left && IsSuperseded(m, row, batch, e)
      invariant forall e :: e in kept <==> e !in left && e in batch && e !in Events(m, row) && !IsSuperseded(m, row, batch, e)
      invariant forall e :: e in kept ==> Single(e.change) && FacetOf(e.change) in out && out[FacetOf(e.change)] == e
      decreases left
    {
      var e :| e in left;
      left := left - {e};
      DecidesOwnFacet(m, row, batch, out, e);
      if e !in Events(m, row) {
        if out[FacetOf(e.change)] == e {
          kept := kept + {e};
        } else {
          superseded := superseded + {e};
        }
      }
    }
    CountUp(batch, kept, superseded, Events(m, row));
  }

  lemma CloseIsExclusive(was: BeadState, now: BeadState)
    ensures Diff(was, now).close ==> Diff(was, now).status.None?
  {}

  lemma DecidesOwnFacet(m: Minter, row: Row, batch: set<Event>, out: map<Facet, Event>, e: Event)
    requires WellFormed(row) && Loadable(m, row, batch) && DecidersOf(Events(m, row) + batch, out) && e in batch
    ensures Single(e.change)
    ensures FacetOf(e.change) in out
    ensures Decides(Events(m, row) + batch, FacetOf(e.change), e) <==> out[FacetOf(e.change)] == e
  {
    hide Touches, Le, Base;
    assert Acceptable(e.change);
    var f := FacetOf(e.change);
    LoadableIdentified(m, row, batch);
    TouchedBy(Events(m, row) + batch, f, e);
    DecidersAt(Events(m, row) + batch, out, f);
    if Decides(Events(m, row) + batch, f, e) {
      DeciderUnique(Events(m, row) + batch, f, e, out[f]);
    }
  }

  /** A new event that decides the facet it is stored under is what the document says of it afterwards. */
  lemma KeptIsStored(m: Minter, row: Row, out: map<Facet, Event>, now: real, e: Event, f: Facet)
    requires ModeOf(m, row) != Unread && e !in Events(m, row) && f in out && out[f] == e && KeyOf(e.change) == Some(f)
    ensures f in AfterDeciding(m, row, out, now).document && AfterDeciding(m, row, out, now).document[f] == e
  {
    hide Writes, Executed, PlanFor, ModeOf, Events;
    AfterIs(m, row, out, now);
  }

  lemma CountUp(batch: set<Event>, kept: set<Event>, superseded: set<Event>, stored: set<Event>)
    requires kept !! superseded && kept <= batch && superseded <= batch
    requires forall e :: e in batch ==> (e in stored <==> e !in kept + superseded)
    ensures |batch| == |kept| + |superseded| + |batch * stored|
  {
    assert batch == kept + superseded + batch * stored;
    assert (kept + superseded) !! (batch * stored);
  }

  // ----- the read cache -----

  /** A port behind the cache, with the number of exports it has answered. */
  class ExportPort<T> {
    var rows: seq<T>
    var exports: nat

    constructor (rows: seq<T>)
      ensures this.rows == rows && exports == 0
    {
      this.rows, exports := rows, 0;
    }

    method ExportRows() returns (r: seq<T>)
      modifies `exports
      ensures r == rows && exports == old(exports) + 1
    {
      exports := exports + 1;
      r := rows;
    }

    /** Any of the port's writes. */
    method Write(effect: seq<T> -> seq<T>)
      modifies `rows
      ensures rows == effect(old(rows))
    {
      rows := effect(rows);
    }
  }

  class CachedReadPort<T> {
    const inner: ExportPort<T>
    var cached: Option<seq<T>>

    /** What is cached is what the inner port would answer. */
    ghost predicate Valid()
      reads this, inner
    {
      cached.Some? ==> cached.value == inner.rows
    }

    constructor (inner: ExportPort<T>)
      ensures this.inner == inner && cached.None? && Valid()
    {
      this.inner, cached := inner, None;
    }

    /** Always the inner port's rows, with at most one export since the last write. */
    method ExportRows() returns (r: seq<T>)
      requires Valid()
      modifies this, inner
      ensures Valid() && cached.Some? && r == inner.rows == old(inner.rows)
      ensures inner.exports == old(inner.exports) + (if old(cached).Some? then 0 else 1)
    {
      if cached.None? {
        var rows := inner.ExportRows();
        cached := Some(rows);
      }
      r := cached.value;
    }

    method Write(effect: seq<T> -> seq<T>)
      requires Valid()
      modifies this, inner
      ensures Valid() && inner.rows == effect(old(inner.rows)) && inner.exports == old(inner.exports)
    {
      cached := None;
      inner.Write(effect);
    }
  }

  // ----- loading through the cache -----

  /** One load of one bead, read and written through the cache. */
  method LoadThrough(m: Minter, cache: CachedReadPort<Row>, i: nat, batch: set<Event>, now: real) returns (wrote: bool)
    requires cache.Valid() && i < |cache.inner.rows| && cache.inner.rows[i].updatedAt < now
    requires WellFormed(cache.inner.rows[i]) && Loadable(m, cache.inner.rows[i], batch)
    modifies cache, cache.inner
    ensures cache.Valid()
    ensures var row := old(cache.inner.rows)[i];
      && (wrote <==> ModeOf(m, row) != Unread && Writes(m, row, Outcome(m, row, batch)))
      && cache.inner.rows == old(cache.inner.rows)[i := AfterLoad(m, row, batch, now)]
    ensures cache.inner.exports <= old(cache.inner.exports) + 1
  {
    hide WellFormed, Loadable, DecidersOf, Writes, Executed, PlanFor, Updated, ModeOf, Events;
    var rows := cache.ExportRows();
    var out := DecideLoad(m, rows[i], batch);
    wrote := ModeOf(m, rows[i]) != Unread && Writes(m, rows[i], out);
    if wrote {
      var row' := AfterDeciding(m, rows[i], out, now);
      cache.Write((all: seq<Row>) => if i < |all| then all[i := row'] else all);
    }
  }

  /** Two loads of the same batch through the cache, into a bead that is read the same way in between: the second
      writes if and only if the batch sets a column to the empty text that nothing overrides, and the store shows the
      same values. */
  method LoadTwice(m: Minter, cache: CachedReadPort<Row>, i: nat, batch: set<Event>, now: real, again: real)
    returns (first: bool, second: bool)
    requires cache.Valid() && i < |cache.inner.rows| && cache.inner.rows[i].updatedAt < now < again
    requires Reloadable(m, cache.inner.rows[i], batch)
    modifies cache, cache.inner
    ensures cache.Valid() && (second <==> BlanksAColumn(m, old(cache.inner.rows)[i], batch))
    ensures |cache.inner.rows| == |old(cache.inner.rows)|
    ensures var row' := AfterLoad(m, old(cache.inner.rows)[i], batch, now);
      cache.inner.rows[i] == if second then row'.(updatedAt := again) else row'
    ensures forall j :: 0 <= j < |cache.inner.rows| && j != i ==> cache.inner.rows[j] == old(cache.inner.rows)[j]
  {
    hide WellFormed, Loadable, DecidersOf, Writes, AfterDeciding, BlanksAColumn, Outcome, ModeOf, Steady, Along;
    ghost var row := cache.inner.rows[i];
    first := LoadThrough(m, cache, i, batch, now);
    Reloaded(m, row, batch, now);
    TimesAfter(m, row, batch, now);
    WritesAgainIff(m, row, batch, now, again);
    second := LoadThrough(m, cache, i, batch, again);
  }
}
