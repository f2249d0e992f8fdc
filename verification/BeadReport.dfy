/** The loss report of a load: every posted event is stored, kept, ignored or dropped, once. */
module BeadReport {
  import opened Wrappers
  import opened BeadLog
  import opened BeadStore
  import opened BeadReader
  import opened BeadLoader
  import opened BeadConvergence
  import BeadRun

  datatype BeadRef = BeadRef(group: string, id: string)

  /** An event with the bead it is for; `targetGroup` is the group of an edge's target. */
  datatype Posted = Posted(bead: BeadRef, redacted: bool, event: Event, targetGroup: string)

  datatype Code =
    | ForeignGroup | Redacted | DeleteDisabled | ErasureIncomplete | FieldUnsupported | UnknownStatus | DanglingTarget
    | Erased | Deleted | MissingBead | Superseded

  datatype Loss = Loss(event: Posted, code: Code)

  datatype Loader = Loader(
    group: string,
    minter: Minter,
    rows: map<string, Row>,
    deleteEnabled: bool,
    statuses: set<string>,
    isTimestamp: string -> bool
  )

  /** Every row is well formed, and bd's statuses are its own. */
  ghost predicate ValidLoader(l: Loader) {
    RETIRED !in l.statuses && forall id :: id in l.rows ==> WellFormed(l.rows[id])
  }

  // ----- screening -----

  const IMPORT_ONLY := {"owner"}
  const TIMESTAMPS := {"due_at", "defer_until"}

  predicate Reserved(key: string) {
    key == "bdlg" || "bdlg." <= key
  }

  predicate FieldProblem(l: Loader, n: FieldName, v: Option<Value>, isNew: bool) {
    match n
    case Meta(key) => Reserved(key)
    case Column(name) =>
      if name !in WRITABLE && name !in IMPORT_ONLY then true
      else if name in IMPORT_ONLY && !isNew then true
      else if v.None? then name in UNCLEARABLE
      else if name in INTEGERS then !v.value.Integer?
      else if !v.value.Text? then true
      else name in TIMESTAMPS && !l.isTimestamp(v.value.s)
  }

  /** Why an event is refused before any bead is planned; a checkpoint never is. */
  function Refusal(l: Loader, p: Posted): Option<Code> {
    var isNew := p.bead.id !in l.rows;
    if p.bead.group != l.group then Some(ForeignGroup)
    else if p.redacted then Some(Redacted)
    else
      match p.event.change
      case Delete => if l.deleteEnabled then None else Some(DeleteDisabled)
      case Tombstone(_) => Some(ErasureIncomplete)
      case SetField(n, v) => if FieldProblem(l, n, v, isNew) then Some(FieldUnsupported) else None
      case Create(fields) =>
        if exists n :: n in fields && FieldProblem(l, n, Some(fields[n]), isNew) then Some(FieldUnsupported) else None
      case SetPhase(phase) => if phase in l.statuses then None else Some(UnknownStatus)
      case EdgeAdd(_) => if p.targetGroup == l.group then None else Some(DanglingTarget)
      case EdgeRemove(_) => if p.targetGroup == l.group then None else Some(DanglingTarget)
      case _ => None
  }

  /** For an existing bead the screening lets through only ordinary changes that a load can take, but for an empty
      title, which bd refuses. */
  lemma ScreenedIsAcceptable(l: Loader, p: Posted)
    requires RETIRED !in l.statuses && Refusal(l, p).None? && p.bead.id in l.rows && Ordinary(p.event.change)
    ensures Acceptable(p.event.change) <==> p.event.change != SetField(Column("title"), Some(Text("")))
  {}

  // ----- the class of an event -----

  datatype Class = Refused(code: Code) | Wiped | Ignored | Gone(deleted: bool) | Stored | Beaten | Kept

  /** The accepted events of one bead, in order. */
  function Accepted(l: Loader, batch: seq<Posted>, bead: BeadRef): seq<Posted> {
    if batch == [] then []
    else
      var front, p := Accepted(l, batch[..|batch| - 1], bead), batch[|batch| - 1];
      if p.bead == bead && Refusal(l, p).None? then front + [p] else front
  }

  predicate IsWiped(batch: seq<Posted>, bead: BeadRef) {
    exists p :: p in batch && p.bead == bead && p.event.change == Tombstone(true)
  }

  predicate IsIgnored(l: Loader, mine: seq<Posted>, p: Posted) {
    p.event.change.Checkpoint? && (p.bead.id in l.rows || exists x :: x in mine && x.event.change.Create?)
  }

  /** What the store emits of a bead. */
  function Stock(l: Loader, bead: BeadRef): set<Event> {
    if bead.id in l.rows then Events(l.minter, l.rows[bead.id]) else {}
  }

  /** The accepted events that take part in the fold. */
  function Fresh(l: Loader, mine: seq<Posted>): set<Event> {
    set p | p in mine && !IsIgnored(l, mine, p) :: p.event
  }

  function Merged(l: Loader, bead: BeadRef, mine: seq<Posted>): set<Event> {
    Stock(l, bead) + Fresh(l, mine)
  }

  /** A checkpoint seeds a bead when no change lies at or before what it covers; the one covering most, and
      the first of those, does. */
  predicate CanSeed(es: set<Event>, c: Event) {
    c in es && c.change.Checkpoint? && forall x :: x in es && !x.change.Checkpoint? ==> !Le(x.stamp, c.change.covers)
  }

  predicate Seeds(es: set<Event>, c: Event) {
    CanSeed(es, c) && forall d :: d in es && CanSeed(es, d) ==>
      Le(d.change.covers, c.change.covers) && (d.change.covers == c.change.covers ==> Le(c.stamp, d.stamp))
  }

  /** The bead exists: the latest create or delete creates it or, without either, its seed says so. */
  predicate Alive(es: set<Event>) {
    if Touched(es, Exists) then exists e :: e in es && Decides(es, Exists, e) && e.change.Create?
    else exists c :: c in es && Seeds(es, c) && !c.change.gone
  }

  predicate Dead(es: set<Event>) {
    if Touched(es, Exists) then exists e :: e in es && Decides(es, Exists, e) && e.change.Delete?
    else exists c :: c in es && Seeds(es, c) && c.change.gone
  }

  /** Decides some facet, or vouches for the bead's existence. */
  ghost predicate DecidesSome(es: set<Event>, e: Event) {
    (exists f :: Decides(es, f, e)) || Vouches(es, e)
  }

  ghost function Planned(l: Loader, bead: BeadRef, mine: seq<Posted>, p: Posted): Class {
    var merged := Merged(l, bead, mine);
    if IsIgnored(l, mine, p) then Ignored
    else if !Alive(merged) then Gone(Dead(merged))
    else if p.event in Stock(l, bead) then Class.Stored
    else if DecidesSome(merged, p.event) then Kept
    else Beaten
  }

  /** A new event is kept if and only if it decides something, beaten if and only if it decides nothing. */
  ghost function ClassOf(l: Loader, batch: seq<Posted>, p: Posted): Class {
    var refusal := Refusal(l, p);
    if refusal.Some? then Refused(refusal.value)
    else if IsWiped(batch, p.bead) then Wiped
    else Planned(l, p.bead, Accepted(l, batch, p.bead), p)
  }

  function CodeOf(c: Class): Option<Code> {
    match c
    case Refused(code) => Some(code)
    case Wiped => Some(Erased)
    case Gone(deleted) => Some(if deleted then Deleted else MissingBead)
    case Beaten => Some(Superseded)
    case _ => None
  }

  /** Two different events of one bead share an id, and the load is refused. */
  ghost predicate Collides(l: Loader, batch: seq<Posted>) {
    exists bead :: CollidesAt(l, batch, bead)
  }

  predicate CollidesAt(l: Loader, batch: seq<Posted>, bead: BeadRef) {
    Accepted(l, batch, bead) != [] && !IsWiped(batch, bead) && !Identified(Merged(l, bead, Accepted(l, batch, bead)))
  }

  /** A bead whose row can be read back, and that nothing deletes, is never missing. */
  lemma PresentIsAlive(l: Loader, bead: BeadRef, mine: seq<Posted>)
    requires ValidLoader(l) && bead.id in l.rows && ModeOf(l.minter, l.rows[bead.id]) != Unread
    requires forall p :: p in mine ==> !p.event.change.Delete?
    ensures Alive(Merged(l, bead, mine))
  {
    hide WellFormed, Le, Events, ModeOf, OwnIn, CreateIn;
    var row, es := l.rows[bead.id], Merged(l, bead, mine);
    var mode := ModeOf(l.minter, row);
    HasCreate(l.minter, row);
    var c := CreateIn(l.minter, row, mode).value;
    CreateTouches(l.minter, row, mode);
    EmittedIs(l.minter, row, c);
    TouchedBy(es, Exists, c);
    var e := LatestExists(es, Exists);
    if e in Events(l.minter, row) {
      OnlyCreateExists(l.minter, row, e);
    }
  }

  lemma HasCreate(m: Minter, row: Row)
    requires ModeOf(m, row) != Unread
    ensures CreateIn(m, row, ModeOf(m, row)).Some?
  {}

  lemma OnlyCreateExists(m: Minter, row: Row, e: Event)
    requires WellFormed(row) && e in Events(m, row) && Touches(e.change, Exists)
    ensures e.change.Create?
  {
    hide WellFormed, ModeOf, Events;
    EmittedTouching(m, row, Exists, e);
    CreateTouches(m, row, ModeOf(m, row));
  }

  /** The walk over the merged events finds exactly the events that decide something. */
  lemma FoundIffDecides(es: set<Event>, out: map<Facet, Event>, e: Event)
    requires Identified(es) && DecidersAndVouchers(es, out)
    ensures e in out.Values <==> DecidesSome(es, e)
  {
    hide Le, Touches;
    if e in out.Values {
      var f :| f in out && out[f] == e;
    }
    if f :| Decides(es, f, e) {
      TouchedBy(es, f, e);
      DeciderUnique(es, f, e, out[f]);
    }
    if Vouches(es, e) {
      assert Exists in out;
      LeAntisymmetric(e.stamp, out[Exists].stamp);
    }
  }

  // ----- the report as it is built -----

  function IdOf(p: Posted): string {
    p.event.stamp.id
  }

  /** No two events of the batch share an id. */
  predicate OneEach(batch: seq<Posted>) {
    forall i, j :: 0 <= i < j < |batch| ==> batch[i].event.stamp.id != batch[j].event.stamp.id
  }

  predicate Once(losses: seq<Loss>) {
    forall i, j :: 0 <= i < j < |losses| ==> losses[i].event != losses[j].event
  }

  /** The losses are the drops of these events, each reported once with its own reason. */
  ghost predicate Reports(l: Loader, batch: seq<Posted>, losses: seq<Loss>, events: set<Posted>) {
    && Once(losses)
    && (forall x :: x in losses <==> x.event in events && CodeOf(ClassOf(l, batch, x.event)) == Some(x.code))
  }

  lemma ReportsOne(l: Loader, batch: seq<Posted>, losses: seq<Loss>, events: set<Posted>, e: Posted)
    requires Reports(l, batch, losses, events) && e !in events
    ensures var code := CodeOf(ClassOf(l, batch, e));
      Reports(l, batch, if code.Some? then losses + [Loss(e, code.value)] else losses, events + {e})
  {
    hide ClassOf, CodeOf;
    var code := CodeOf(ClassOf(l, batch, e));
    if code.Some? {
      var more := losses + [Loss(e, code.value)];
      forall i | 0 <= i < |losses| ensures more[i].event != e {
        assert losses[i] in losses;
      }
    }
  }

  ghost function Members(s: seq<Posted>): set<Posted> {
    set e | e in s
  }

  /** The accepted events so far, by bead. */
  ghost predicate Grouped(l: Loader, batch: seq<Posted>, accepted: map<BeadRef, seq<Posted>>) {
    forall bead :: (bead in accepted <==> Accepted(l, batch, bead) != []) && (bead in accepted ==> accepted[bead] == Accepted(l, batch, bead))
  }

  lemma GroupedStep(l: Loader, batch: seq<Posted>, i: nat, accepted: map<BeadRef, seq<Posted>>)
    requires i < |batch| && Grouped(l, batch[..i], accepted)
    ensures var e := batch[i];
      Grouped(l, batch[..i + 1],
        if Refusal(l, e).Some? then accepted
        else accepted[e.bead := (if e.bead in accepted then accepted[e.bead] else []) + [e]])
  {
    hide Refusal;
    assert batch[..i + 1][..i] == batch[..i];
  }

  ghost predicate IsRefused(l: Loader, e: Posted) {
    Refusal(l, e).Some?
  }

  ghost function RefusedIn(l: Loader, s: seq<Posted>): set<Posted> {
    set e | e in s && IsRefused(l, e)
  }

  lemma ScreenStart(l: Loader, batch: seq<Posted>)
    ensures Grouped(l, batch[..0], map[])
    ensures Reports(l, batch, [], RefusedIn(l, batch[..0]))
  {}

  lemma ScreenStep(l: Loader, batch: seq<Posted>, i: nat, losses: seq<Loss>)
    requires OneEach(batch) && i < |batch|
    requires Reports(l, batch, losses, RefusedIn(l, batch[..i]))
    ensures var refusal := Refusal(l, batch[i]);
      Reports(l, batch, if refusal.Some? then losses + [Loss(batch[i], refusal.value)] else losses,
        RefusedIn(l, batch[..i + 1]))
  {
    hide Refusal, Reports, Planned, IsWiped;
    var e := batch[i];
    var past := RefusedIn(l, batch[..i]);
    assert batch[..i + 1] == batch[..i] + [e];
    if Refusal(l, e).Some? {
      forall k | 0 <= k < i ensures batch[k] != e {
        assert IdOf(batch[k]) != IdOf(batch[i]);
      }
      assert e !in batch[..i];
      ReportsOne(l, batch, losses, past, e);
      assert RefusedIn(l, batch[..i + 1]) == past + {e};
    } else {
      assert RefusedIn(l, batch[..i + 1]) == past;
    }
  }

  /** Drop what bd cannot take at all, each with its reason, and group the rest by bead in order. */
  method Screen(l: Loader, batch: seq<Posted>) returns (accepted: map<BeadRef, seq<Posted>>, losses: seq<Loss>)
    requires OneEach(batch)
    ensures Grouped(l, batch, accepted)
    ensures Reports(l, batch, losses, RefusedIn(l, batch))
  {
    hide Refusal, Reports, Grouped, Planned, RefusedIn;
    accepted, losses := map[], [];
    ScreenStart(l, batch);
    var i := 0;
    while i < |batch|
      invariant 0 <= i <= |batch|
      invariant Grouped(l, batch[..i], accepted)
      invariant Reports(l, batch, losses, RefusedIn(l, batch[..i]))
    {
      var e := batch[i];
      GroupedStep(l, batch, i, accepted);
      ScreenStep(l, batch, i, losses);
      var reason := Refusal(l, e);
      if reason.Some? {
        losses := losses + [Loss(e, reason.value)];
      } else {
        accepted := accepted[e.bead := (if e.bead in accepted then accepted[e.bead] else []) + [e]];
      }
      i := i + 1;
    }
    assert batch[..i] == batch;
  }

  lemma {:induction false} AcceptedMembers(l: Loader, batch: seq<Posted>, bead: BeadRef)
    requires OneEach(batch)
    ensures forall e :: e in Accepted(l, batch, bead) <==> e in batch && e.bead == bead && Refusal(l, e).None?
    ensures OneEach(Accepted(l, batch, bead))
  {
    hide Refusal;
    if batch != [] {
      var front, last := batch[..|batch| - 1], batch[|batch| - 1];
      assert batch == front + [last];
      AcceptedMembers(l, front, bead);
      var some := Accepted(l, front, bead);
      forall i | 0 <= i < |some| ensures IdOf(some[i]) != IdOf(last) {
        assert some[i] in front;
      }
    }
  }

  function StoredDocument(l: Loader, bead: BeadRef): map<Facet, Event> {
    if bead.id in l.rows then l.rows[bead.id].document else map[]
  }

  ghost predicate IsKept(l: Loader, batch: seq<Posted>, p: Posted) {
    ClassOf(l, batch, p).Kept?
  }

  /** The document of a bead once the kept ones of these events are stored in order, each under its own key. */
  ghost function Recorded(l: Loader, batch: seq<Posted>, bead: BeadRef, some: seq<Posted>): map<Facet, Event> {
    if some == [] then StoredDocument(l, bead)
    else
      var d, p := Recorded(l, batch, bead, some[..|some| - 1]), some[|some| - 1];
      if IsKept(l, batch, p) && KeyOf(p.event.change).Some? then d[KeyOf(p.event.change).value := p.event] else d
  }

  lemma RecordedNone(l: Loader, batch: seq<Posted>, bead: BeadRef, mine: seq<Posted>)
    ensures Recorded(l, batch, bead, mine[..0]) == StoredDocument(l, bead)
  {}

  lemma RecordedStep(l: Loader, batch: seq<Posted>, bead: BeadRef, mine: seq<Posted>, i: nat)
    requires i < |mine|
    ensures var key, d := KeyOf(mine[i].event.change), Recorded(l, batch, bead, mine[..i]);
      Recorded(l, batch, bead, mine[..i + 1]) == if ClassOf(l, batch, mine[i]).Kept? && key.Some? then d[key.value := mine[i].event] else d
  {
    hide ClassOf, KeyOf;
    assert mine[..i + 1][..i] == mine[..i];
  }

  /** The document holds the kept events among what was accepted. */
  ghost predicate Documents(l: Loader, batch: seq<Posted>, bead: BeadRef, d: map<Facet, Event>) {
    d == Recorded(l, batch, bead, Accepted(l, batch, bead))
  }

  /** Sort the accepted events of one bead: report the ones it drops, return the ones it keeps and the document
      they go into; None for a bead that no longer exists. */
  method PlanBead(l: Loader, ghost batch: seq<Posted>, bead: BeadRef, mine: seq<Posted>, before: seq<Loss>, ghost events: set<Posted>)
    returns (refused: bool, losses: seq<Loss>, kept: set<Posted>, document: Option<map<Facet, Event>>)
    requires OneEach(batch) && mine == Accepted(l, batch, bead) && !IsWiped(batch, bead)
    requires Reports(l, batch, before, events) && events !! Members(mine)
    ensures refused <==> !Identified(Merged(l, bead, mine))
    ensures !refused ==> Reports(l, batch, losses, events + Members(mine))
    ensures !refused ==> kept == set p | p in mine && ClassOf(l, batch, p).Kept?
    ensures !refused ==> (document.Some? <==> Alive(Merged(l, bead, mine)))
    ensures !refused && document.Some? ==> Documents(l, batch, bead, document.value)
  {
    hide Refusal, Reports, Accepted, IsWiped, Identified, DecidersAndVouchers, Alive, Dead, DecidesSome, Merged, IsIgnored, KeyOf, ClassOf, Recorded;
    losses, kept, document := before, {}, None;
    var stored := StoredDocument(l, bead);
    RecordedNone(l, batch, bead, mine);
    var merged := Merged(l, bead, mine);
    refused := !Identified(merged);
    if refused {
      return;
    }
    AcceptedMembers(l, batch, bead);
    assert events + Members(mine[..0]) == events;
    var out := Deciders(merged);
    var alive, dead, found := Alive(merged), Dead(merged), out.Values;
    var i := 0;
    while i < |mine|
      invariant 0 <= i <= |mine|
      invariant Reports(l, batch, losses, events + Members(mine[..i]))
      invariant kept == set p | p in mine[..i] && ClassOf(l, batch, p).Kept?
      invariant stored == Recorded(l, batch, bead, mine[..i])
    {
      var p := mine[i];
      FoundIffDecides(merged, out, p.event);
      var verdict := if IsIgnored(l, mine, p) then Ignored
                    else if !alive then Gone(dead)
                    else if p.event in Stock(l, bead) then Class.Stored
                    else if p.event in found then Kept
                    else Beaten;
      VerdictIsClass(l, batch, bead, p, verdict);
      assert p in mine;
      NotYet(mine, i);
      assert p !in events && p !in Members(mine[..i]) by {
        assert p in Members(mine);
      }
      ReportsOne(l, batch, losses, events + Members(mine[..i]), p);
      RecordedStep(l, batch, bead, mine, i);
      assert mine[..i + 1] == mine[..i] + [p];
      assert events + Members(mine[..i + 1]) == events + Members(mine[..i]) + {p};
      var code := CodeOf(verdict);
      if code.Some? {
        losses := losses + [Loss(p, code.value)];
      } else if verdict.Kept? {
        kept := kept + {p};
        var key := KeyOf(p.event.change);
        stored := if key.Some? then stored[key.value := p.event] else stored;
      }
      i := i + 1;
    }
    assert mine[..i] == mine;
    if alive {
      document := Some(stored);
    }
  }

  lemma VerdictIsClass(l: Loader, batch: seq<Posted>, bead: BeadRef, p: Posted, verdict: Class)
    requires OneEach(batch) && p in Accepted(l, batch, bead) && !IsWiped(batch, bead)
    requires verdict == Planned(l, bead, Accepted(l, batch, bead), p)
    ensures ClassOf(l, batch, p) == verdict
  {
    hide Refusal, Accepted, IsWiped, Planned;
    AcceptedMembers(l, batch, bead);
  }

  /** Report every accepted event of a bead that a tombstone erases. */
  method DropWiped(l: Loader, ghost batch: seq<Posted>, bead: BeadRef, mine: seq<Posted>, before: seq<Loss>, ghost events: set<Posted>)
    returns (losses: seq<Loss>)
    requires OneEach(batch) && mine == Accepted(l, batch, bead) && IsWiped(batch, bead)
    requires Reports(l, batch, before, events) && events !! Members(mine)
    ensures Reports(l, batch, losses, events + Members(mine))
    ensures forall p :: p in mine ==> ClassOf(l, batch, p).Wiped?
  {
    hide Refusal, Reports, Accepted, IsWiped, Planned;
    losses := before;
    AcceptedMembers(l, batch, bead);
    assert events + Members(mine[..0]) == events;
    var i := 0;
    while i < |mine|
      invariant 0 <= i <= |mine|
      invariant Reports(l, batch, losses, events + Members(mine[..i]))
    {
      var p := mine[i];
      assert p in mine;
      assert ClassOf(l, batch, p) == Wiped;
      NotYet(mine, i);
      assert p !in events && p !in Members(mine[..i]) by {
        assert p in Members(mine);
      }
      ReportsOne(l, batch, losses, events + Members(mine[..i]), p);
      assert mine[..i + 1] == mine[..i] + [p];
      assert events + Members(mine[..i + 1]) == events + Members(mine[..i]) + {p};
      losses := losses + [Loss(p, Erased)];
      i := i + 1;
    }
    assert mine[..i] == mine;
  }

  lemma NotYet(mine: seq<Posted>, i: nat)
    requires OneEach(mine) && i < |mine|
    ensures mine[i] !in mine[..i]
  {
    forall k | 0 <= k < i ensures mine[k] != mine[i] {
      assert IdOf(mine[k]) != IdOf(mine[i]);
    }
  }

  /** The events of the beads that are done, and the refused ones. */
  ghost function DoneWith(l: Loader, batch: seq<Posted>, left: set<BeadRef>): set<Posted> {
    set e | e in batch && (IsRefused(l, e) || e.bead !in left)
  }

  lemma DoneStep(l: Loader, batch: seq<Posted>, left: set<BeadRef>, bead: BeadRef)
    requires OneEach(batch) && bead in left
    ensures var mine := Members(Accepted(l, batch, bead));
      mine !! DoneWith(l, batch, left) && DoneWith(l, batch, left - {bead}) == DoneWith(l, batch, left) + mine
  {
    hide Refusal, Accepted;
    AcceptedMembers(l, batch, bead);
  }

  lemma DoneStart(l: Loader, batch: seq<Posted>, accepted: map<BeadRef, seq<Posted>>)
    requires OneEach(batch) && Grouped(l, batch, accepted)
    ensures DoneWith(l, batch, accepted.Keys) == RefusedIn(l, batch)
  {
    hide Refusal, Accepted;
    forall e | e in batch && !IsRefused(l, e) ensures e.bead in accepted {
      AcceptedMembers(l, batch, e.bead);
      assert e in Accepted(l, batch, e.bead);
    }
  }

  datatype Summary = Summary(events: nat, loaded: int, dropped: nat)

  /** The documents of the store. */
  function Archive(l: Loader): map<string, map<Facet, Event>> {
    map id | id in l.rows :: l.rows[id].document
  }

  /** The bead keeps existing and is planned. */
  ghost predicate Stays(l: Loader, batch: seq<Posted>, bead: BeadRef) {
    Accepted(l, batch, bead) != [] && !IsWiped(batch, bead) && Alive(Merged(l, bead, Accepted(l, batch, bead)))
  }

  /** The document holds the event, or another kept one in the single place a create or checkpoint has. */
  ghost predicate Names(l: Loader, batch: seq<Posted>, documents: map<string, map<Facet, Event>>, p: Posted) {
    && p.bead.id in documents && KeyOf(p.event.change).Some?
    && var key := KeyOf(p.event.change).value; var d := documents[p.bead.id];
    key in d &&
    if key != Exists then d[key] == p.event
    else exists q :: q in batch && q.bead == p.bead && IsKept(l, batch, q) && KeyOf(q.event.change) == Some(Exists) && d[key] == q.event
  }

  /** The documents of the beads that are done hold their deciders. */
  ghost predicate Written(l: Loader, batch: seq<Posted>, documents: map<string, map<Facet, Event>>, left: set<BeadRef>) {
    forall bead :: Stays(l, batch, bead) && bead !in left ==> bead.id in documents && Documents(l, batch, bead, documents[bead.id])
  }

  /** Load a batch, or only assess it. Refused when two different events of a bead share an id. Otherwise every
      event has one class, each dropped one is reported once with its reason, and each kept one is in the document
      of its bead; a dry run reports the same and stores nothing. */
  method Report(l: Loader, batch: seq<Posted>, dryRun: bool)
    returns (refused: bool, losses: seq<Loss>, kept: set<Posted>, documents: map<string, map<Facet, Event>>, summary: Summary)
    requires OneEach(batch)
    ensures refused <==> Collides(l, batch)
    ensures !refused ==> Reports(l, batch, losses, Members(batch))
    ensures !refused ==> kept == set p | p in batch && ClassOf(l, batch, p).Kept?
    ensures !refused ==> summary.events == |batch| == summary.loaded + summary.dropped && summary.dropped == |losses|
    ensures !refused ==> summary.loaded == |set p | p in batch && CodeOf(ClassOf(l, batch, p)).None?|
    ensures refused || dryRun ==> documents == Archive(l)
    ensures !refused && !dryRun ==> Written(l, batch, documents, {})
    ensures !refused && !dryRun ==> forall p :: p in kept ==> Names(l, batch, documents, p)
  {
    hide Refusal, Reports, Planned, Accepted, Grouped, IsWiped, Merged, Identified, Documents, Alive, Stays;
    var accepted, found := Screen(l, batch);
    refused, losses, kept, documents, summary := false, found, {}, Archive(l), Summary(0, 0, 0);
    DoneStart(l, batch, accepted);
    var left := accepted.Keys;
    forall p | p in batch && IsKept(l, batch, p) ensures p.bead in left {
      assert p !in RefusedIn(l, batch);
      assert p !in DoneWith(l, batch, left);
    }
    AllPlannedLeft(l, batch, accepted, documents);
    while left != {}
      invariant left <= accepted.Keys
      invariant Reports(l, batch, losses, DoneWith(l, batch, left))
      invariant kept == set p | p in batch && ClassOf(l, batch, p).Kept? && p.bead !in left
      invariant forall bead :: bead in accepted && bead !in left ==> !CollidesAt(l, batch, bead)
      invariant Written(l, batch, documents, left)
      decreases |left|
    {
      var bead :| bead in left;
      GroupedAt(l, batch, accepted, bead);
      DoneStep(l, batch, left, bead);
      AcceptedMembers(l, batch, bead);
      SameGroup(l, batch, bead);
      if IsWiped(batch, bead) {
        losses := DropWiped(l, batch, bead, accepted[bead], losses, DoneWith(l, batch, left));
        WipedWritten(l, batch, documents, left, bead);
        documents := if l.deleteEnabled then documents - {bead.id} else documents;
      } else {
        var no, more, some, document := PlanBead(l, batch, bead, accepted[bead], losses, DoneWith(l, batch, left));
        if no {
          CollisionFound(l, batch, accepted, bead);
          refused, documents := true, Archive(l);
          return;
        }
        losses, kept := more, kept + some;
        PlannedWritten(l, batch, documents, left, bead, document);
        documents := if document.Some? then documents[bead.id := document.value] else documents - {bead.id};
      }
      left := left - {bead};
    }
    assert DoneWith(l, batch, {}) == Members(batch);
    NoCollision(l, batch, accepted);
    var dropped := set x | x in losses :: IdOf(x.event);
    Counts(l, batch, losses, dropped);
    summary := Summary(|batch|, |batch| - |dropped|, |dropped|);
    forall p | p in kept ensures Names(l, batch, documents, p) {
      KeptIsNamed(l, batch, documents, p);
    }
    if dryRun {
      documents := Archive(l);
    }
  }

  lemma AllPlannedLeft(l: Loader, batch: seq<Posted>, accepted: map<BeadRef, seq<Posted>>, documents: map<string, map<Facet, Event>>)
    requires Grouped(l, batch, accepted)
    ensures Written(l, batch, documents, accepted.Keys)
  {
    hide Accepted, Merged, Alive, IsWiped;
    forall bead | Stays(l, batch, bead) ensures bead in accepted {
      assert bead !in accepted ==> Accepted(l, batch, bead) == [];
    }
  }

  /** Planned beads belong to this hive, so they are told apart by their ids. */
  lemma SameGroup(l: Loader, batch: seq<Posted>, bead: BeadRef)
    requires OneEach(batch)
    ensures forall other :: Stays(l, batch, other) && Accepted(l, batch, bead) != [] && other.id == bead.id ==> other == bead
  {
    hide Alive, IsWiped, Merged;
    forall b: BeadRef | Accepted(l, batch, b) != [] ensures b.group == l.group {
      AcceptedMembers(l, batch, b);
      assert Accepted(l, batch, b)[0] in Accepted(l, batch, b);
    }
  }

  lemma WipedWritten(l: Loader, batch: seq<Posted>, documents: map<string, map<Facet, Event>>, left: set<BeadRef>, bead: BeadRef)
    requires Written(l, batch, documents, left) && IsWiped(batch, bead)
    requires forall other :: Stays(l, batch, other) && Accepted(l, batch, bead) != [] && other.id == bead.id ==> other == bead
    requires Accepted(l, batch, bead) != []
    ensures Written(l, batch, if l.deleteEnabled then documents - {bead.id} else documents, left - {bead})
  {
    hide Alive, IsWiped, Merged, Accepted, Documents;
  }

  lemma PlannedWritten(
    l: Loader, batch: seq<Posted>, documents: map<string, map<Facet, Event>>, left: set<BeadRef>, bead: BeadRef,
    document: Option<map<Facet, Event>>
  )
    requires Written(l, batch, documents, left) && Accepted(l, batch, bead) != []
    requires forall other :: Stays(l, batch, other) && Accepted(l, batch, bead) != [] && other.id == bead.id ==> other == bead
    requires document.Some? <==> Alive(Merged(l, bead, Accepted(l, batch, bead)))
    requires document.Some? ==> Documents(l, batch, bead, document.value)
    ensures Written(l, batch, if document.Some? then documents[bead.id := document.value] else documents - {bead.id}, left - {bead})
  {
    hide Alive, IsWiped, Merged, Accepted, Documents;
  }

  lemma CollisionFound(l: Loader, batch: seq<Posted>, accepted: map<BeadRef, seq<Posted>>, bead: BeadRef)
    requires bead in accepted && accepted[bead] == Accepted(l, batch, bead) && accepted[bead] != [] && !IsWiped(batch, bead)
    requires !Identified(Merged(l, bead, accepted[bead]))
    ensures Collides(l, batch)
  {
    hide Accepted, IsWiped, Identified, Merged;
    assert CollidesAt(l, batch, bead);
  }

  lemma NoCollision(l: Loader, batch: seq<Posted>, accepted: map<BeadRef, seq<Posted>>)
    requires Grouped(l, batch, accepted)
    requires forall bead :: bead in accepted ==> !CollidesAt(l, batch, bead)
    ensures !Collides(l, batch)
  {
    hide Accepted, IsWiped, Identified, Merged;
    forall bead ensures !CollidesAt(l, batch, bead) {
      assert bead !in accepted ==> Accepted(l, batch, bead) == [];
    }
  }

  /** Under a key stands a kept event of that key, if there is any, or what stood there before. */
  lemma {:induction false} RecordedAt(l: Loader, batch: seq<Posted>, bead: BeadRef, some: seq<Posted>, f: Facet)
    ensures var d, was := Recorded(l, batch, bead, some), StoredDocument(l, bead);
      if exists p :: p in some && IsKept(l, batch, p) && KeyOf(p.event.change) == Some(f) then
        f in d && exists p :: p in some && IsKept(l, batch, p) && KeyOf(p.event.change) == Some(f) && d[f] == p.event
      else (f in d <==> f in was) && (f in d ==> d[f] == was[f])
  {
    hide IsKept, KeyOf;
    if some != [] {
      var front, last := some[..|some| - 1], some[|some| - 1];
      assert some == front + [last];
      RecordedAt(l, batch, bead, front, f);
    }
  }

  /** What is kept decides something. */
  lemma KeptDecides(l: Loader, batch: seq<Posted>, p: Posted)
    requires OneEach(batch) && IsKept(l, batch, p) && p in batch
    ensures var mine := Accepted(l, batch, p.bead);
      && p in mine && !IsWiped(batch, p.bead) && Alive(Merged(l, p.bead, mine)) && !IsIgnored(l, mine, p)
      && DecidesSome(Merged(l, p.bead, mine), p.event) && p.event !in Stock(l, p.bead)
  {
    hide Refusal, IsWiped, DecidesSome, Merged, IsIgnored, Accepted, Alive, Dead;
    AcceptedMembers(l, batch, p.bead);
  }

  /** A kept event has a key, and decides it unless it is a create or a checkpoint. */
  lemma KeptKey(es: set<Event>, e: Event)
    requires DecidesSome(es, e) && Alive(es) && Identified(es)
    ensures e.change.Tombstone? || KeyOf(e.change).Some?
    ensures KeyOf(e.change).Some? && KeyOf(e.change) != Some(Exists) ==> Decides(es, KeyOf(e.change).value, e)
  {
    hide Le;
    if f :| Decides(es, f, e) {
      if e.change.Delete? {
        assert f == Exists;
        DeciderTouches(es, Exists, e);
        var c :| Decides(es, Exists, c) && c.change.Create?;
        DeciderUnique(es, Exists, e, c);
      }
    }
  }

  lemma NoTombstones(es: set<Event>, e: Event)
    requires DecidesSome(es, e)
    ensures !e.change.Tombstone?
  {
    hide Le;
  }

  /** Two kept events with the same key, other than a create's, are one. */
  lemma KeptOnce(l: Loader, batch: seq<Posted>, p: Posted, q: Posted)
    requires OneEach(batch) && !Collides(l, batch) && p in batch && q in batch && p.bead == q.bead
    requires IsKept(l, batch, p) && IsKept(l, batch, q)
    requires KeyOf(p.event.change).Some? && KeyOf(p.event.change) == KeyOf(q.event.change) != Some(Exists)
    ensures p == q
  {
    hide IsKept, IsWiped, Identified, Decides, DecidesSome, Merged, Accepted, Alive, KeyOf;
    var bead := p.bead;
    var es := Merged(l, bead, Accepted(l, batch, bead));
    KeptDecides(l, batch, p);
    KeptDecides(l, batch, q);
    assert !CollidesAt(l, batch, bead);
    KeptKey(es, p.event);
    KeptKey(es, q.event);
    DeciderUnique(es, KeyOf(p.event.change).value, p.event, q.event);
    DistinctIds(batch);
  }

  /** A kept event is in the document of its bead under its key; a create or checkpoint shares one place with the
      others of its bead. */
  lemma KeptIsNamed(l: Loader, batch: seq<Posted>, documents: map<string, map<Facet, Event>>, p: Posted)
    requires OneEach(batch) && p in batch && IsKept(l, batch, p) && !Collides(l, batch) && Written(l, batch, documents, {})
    ensures Names(l, batch, documents, p)
  {
    hide Refusal, IsWiped, Identified, DecidersAndVouchers, DecidesSome, Merged, IsIgnored, Accepted, Alive, IsKept, KeyOf;
    var bead := p.bead;
    var mine := Accepted(l, batch, bead);
    AcceptedMembers(l, batch, bead);
    KeptDecides(l, batch, p);
    assert Stays(l, batch, bead);
    assert !CollidesAt(l, batch, bead);
    NoTombstones(Merged(l, bead, mine), p.event);
    KeptKey(Merged(l, bead, mine), p.event);
    var key := KeyOf(p.event.change).value;
    RecordedAt(l, batch, bead, mine, key);
    var q :| q in mine && IsKept(l, batch, q) && KeyOf(q.event.change) == Some(key) && documents[bead.id][key] == q.event;
    if key != Exists {
      KeptOnce(l, batch, p, q);
    }
  }

  lemma GroupedAt(l: Loader, batch: seq<Posted>, accepted: map<BeadRef, seq<Posted>>, bead: BeadRef)
    requires Grouped(l, batch, accepted) && bead in accepted
    ensures accepted[bead] == Accepted(l, batch, bead) != []
  {
    hide Accepted;
  }

  lemma Counts(l: Loader, batch: seq<Posted>, losses: seq<Loss>, dropped: set<string>)
    requires OneEach(batch) && Reports(l, batch, losses, Members(batch))
    requires dropped == set x | x in losses :: IdOf(x.event)
    ensures |dropped| == |losses|
    ensures |batch| == |dropped| + |set e | e in batch && CodeOf(ClassOf(l, batch, e)).None?|
  {
    hide ClassOf, CodeOf, OneEach;
    var out := set x | x in losses :: x.event;
    var rest := set e | e in batch && CodeOf(ClassOf(l, batch, e)).None?;
    forall e | e in batch && CodeOf(ClassOf(l, batch, e)).Some? ensures e in out {
      assert Loss(e, CodeOf(ClassOf(l, batch, e)).value) in losses;
    }
    assert Members(batch) == out + rest && out !! rest;
    CountDistinct(batch);
    LossEvents(losses);
    assert forall e, x :: e in out && x in out && IdOf(e) == IdOf(x) ==> e == x by {
      DistinctIds(batch);
    }
    SameCount(out, dropped);
  }

  lemma DistinctIds(batch: seq<Posted>)
    requires OneEach(batch)
    ensures forall e, x :: e in batch && x in batch && IdOf(e) == IdOf(x) ==> e == x
  {}

  lemma {:induction false} CountDistinct(batch: seq<Posted>)
    requires OneEach(batch)
    ensures |Members(batch)| == |batch|
  {
    if batch != [] {
      var front, last := batch[..|batch| - 1], batch[|batch| - 1];
      assert batch == front + [last];
      CountDistinct(front);
      NotYet(batch, |batch| - 1);
      assert Members(batch) == Members(front) + {last};
    }
  }

  lemma {:induction false} LossEvents(losses: seq<Loss>)
    requires Once(losses)
    ensures |set x | x in losses :: x.event| == |losses|
  {
    if losses != [] {
      var front, last := losses[..|losses| - 1], losses[|losses| - 1];
      assert losses == front + [last];
      LossEvents(front);
      var some := set x | x in front :: x.event;
      assert last.event !in some;
      assert (set x | x in losses :: x.event) == some + {last.event};
    }
  }

  lemma {:induction false} SameCount(events: set<Posted>, ids: set<string>)
    requires ids == set e | e in events :: IdOf(e)
    requires forall e, x :: e in events && x in events && IdOf(e) == IdOf(x) ==> e == x
    ensures |ids| == |events|
    decreases |events|
  {
    if events != {} {
      var e :| e in events;
      SameCount(events - {e}, ids - {IdOf(e)});
    }
  }

  // ----- the report and the load -----

  /** For a bead in the store whose row can be read back and changes a load takes, the report's document is that of
      the row after the load, and its classes are those the load sorts the batch into. */
  lemma ReportMeetsLoad(l: Loader, batch: seq<Posted>, bead: BeadRef, now: real, d: map<Facet, Event>)
    requires OneEach(batch) && ValidLoader(l) && bead.id in l.rows && !IsWiped(batch, bead)
    requires ModeOf(l.minter, l.rows[bead.id]) != Unread
    requires Loadable(l.minter, l.rows[bead.id], Fresh(l, Accepted(l, batch, bead)))
    requires forall p :: p in Accepted(l, batch, bead) ==> Ordinary(p.event.change)
    requires Documents(l, batch, bead, d)
    ensures var row, added := l.rows[bead.id], Fresh(l, Accepted(l, batch, bead));
      && d == AfterLoad(l.minter, row, added, now).document
      && forall p :: p in Accepted(l, batch, bead) ==>
           ClassOf(l, batch, p) == if p.event in Events(l.minter, row) then Class.Stored
                                   else if BeadRun.IsSuperseded(l.minter, row, added, p.event) then Beaten else Kept
  {
    hide WellFormed, Refusal, Accepted, Alive, Dead, IsWiped, Loadable, Le, Touches, ClassOf, Recorded, ModeOf, Events, AfterLoad;
    var row, mine := l.rows[bead.id], Accepted(l, batch, bead);
    var added := Fresh(l, mine);
    assert forall p :: p in mine ==> !p.event.change.Delete?;
    PresentIsAlive(l, bead, mine);
    forall p | p in mine
      ensures ClassOf(l, batch, p) == if p.event in Events(l.minter, row) then Class.Stored
                                      else if BeadRun.IsSuperseded(l.minter, row, added, p.event) then Beaten else Kept
    {
      ClassMeetsLoad(l, batch, bead, p);
    }
    var after := AfterLoad(l.minter, row, added, now).document;
    forall f ensures (f in d <==> f in after) && (f in d ==> d[f] == after[f]) {
      SameDocument(l, batch, bead, now, f);
    }
    assert d.Keys == after.Keys;
  }

  /** What the report of a bead says of one facet is what its load stores. */
  lemma SameDocument(l: Loader, batch: seq<Posted>, bead: BeadRef, now: real, f: Facet)
    requires OneEach(batch) && ValidLoader(l) && bead.id in l.rows && !IsWiped(batch, bead)
    requires ModeOf(l.minter, l.rows[bead.id]) != Unread && Alive(Merged(l, bead, Accepted(l, batch, bead)))
    requires Loadable(l.minter, l.rows[bead.id], Fresh(l, Accepted(l, batch, bead)))
    requires forall p :: p in Accepted(l, batch, bead) ==> Ordinary(p.event.change)
    ensures var d, after := Recorded(l, batch, bead, Accepted(l, batch, bead)),
                           AfterLoad(l.minter, l.rows[bead.id], Fresh(l, Accepted(l, batch, bead)), now).document;
      (f in d <==> f in after) && (f in d ==> d[f] == after[f])
  {
    hide WellFormed, Refusal, Accepted, Alive, Loadable, Le, Touches, Recorded, ModeOf, Events, AfterLoad, IsKept, IsWiped, Taken, DeciderOf, KeyOf, DecidersOf, Decides;
    var row, mine := l.rows[bead.id], Accepted(l, batch, bead);
    var added := Fresh(l, mine);
    var out := Outcome(l.minter, row, added);
    LoadAt(l.minter, row, added, now, f);
    RecordedAt(l, batch, bead, mine, f);
    OutcomeAt(l.minter, row, added, out, f);
    DecidersAt(Events(l.minter, row) + added, out, f);
    LoadableIdentified(l.minter, row, added);
    forall p | p in mine && KeyOf(p.event.change) == Some(f)
      ensures IsKept(l, batch, p) <==> Taken(l.minter, row, added, f) && p.event == DeciderOf(added, f)
    {
      KeptIffTaken(l, batch, bead, p, f, out);
    }
    if Taken(l.minter, row, added, f) {
      TakenOf(l.minter, row, added, f);
      var p :| p in mine && p.event == DeciderOf(added, f);
      AcceptableIsSingle(p.event.change, f);
    }
  }

  lemma KeptIffTaken(l: Loader, batch: seq<Posted>, bead: BeadRef, p: Posted, f: Facet, out: map<Facet, Event>)
    requires OneEach(batch) && ValidLoader(l) && bead.id in l.rows && !IsWiped(batch, bead)
    requires ModeOf(l.minter, l.rows[bead.id]) != Unread && Alive(Merged(l, bead, Accepted(l, batch, bead)))
    requires Loadable(l.minter, l.rows[bead.id], Fresh(l, Accepted(l, batch, bead)))
    requires p in Accepted(l, batch, bead) && Ordinary(p.event.change) && KeyOf(p.event.change) == Some(f)
    requires out == Outcome(l.minter, l.rows[bead.id], Fresh(l, Accepted(l, batch, bead)))
    ensures var row, added := l.rows[bead.id], Fresh(l, Accepted(l, batch, bead));
      IsKept(l, batch, p) <==> Taken(l.minter, row, added, f) && p.event == DeciderOf(added, f)
  {
    hide WellFormed, Refusal, Accepted, Alive, Loadable, Le, Touches, ModeOf, Events, IsWiped, DeciderOf, ClassOf, DecidersOf, Decides, Wins;
    var row, added := l.rows[bead.id], Fresh(l, Accepted(l, batch, bead));
    var es := Events(l.minter, row) + added;
    ClassMeetsLoad(l, batch, bead, p);
    OutcomeAt(l.minter, row, added, out, f);
    DecidersAt(es, out, f);
    LoadableIdentified(l.minter, row, added);
    if Decides(es, f, p.event) {
      DeciderTouches(es, f, p.event);
      DeciderUnique(es, f, p.event, out[f]);
    }
  }

  lemma ClassMeetsLoad(l: Loader, batch: seq<Posted>, bead: BeadRef, p: Posted)
    requires OneEach(batch) && bead.id in l.rows && !IsWiped(batch, bead) && p in Accepted(l, batch, bead) && Ordinary(p.event.change)
    requires Alive(Merged(l, bead, Accepted(l, batch, bead)))
    ensures var row, added := l.rows[bead.id], Fresh(l, Accepted(l, batch, bead));
      ClassOf(l, batch, p) == if p.event in Events(l.minter, row) then Class.Stored
                              else if BeadRun.IsSuperseded(l.minter, row, added, p.event) then Beaten else Kept
  {
    hide Refusal, Accepted, Alive, Dead, IsWiped, Base, Le, Touches, DecidesSome, Decides;
    AcceptedMembers(l, batch, bead);
    var row, added := l.rows[bead.id], Fresh(l, Accepted(l, batch, bead));
    assert p.event in added;
    SingleDecides(Events(l.minter, row) + added, p.event);
  }

  lemma SingleDecides(es: set<Event>, e: Event)
    requires Ordinary(e.change)
    ensures Single(e.change) && (DecidesSome(es, e) <==> Decides(es, FacetOf(e.change), e))
  {
    hide Le;
    if f :| Decides(es, f, e) {
      assert f == FacetOf(e.change);
    }
  }
}
