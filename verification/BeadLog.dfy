/** BeadLog events of one bead: the total order on them, the facets they touch, and the event that
    decides each facet. */
module BeadLog {
  import opened Wrappers
  import opened Text

  /** A timestamp, or the absence of one, which sorts last. */
  datatype Instant = At(t: real) | Never

  datatype Stamp = Stamp(k1: Instant, k2: Instant, id: string)

  predicate Earlier(a: Instant, b: Instant) {
    a.At? && (b.Never? || a.t < b.t)
  }

  /** The ordering key: occurrence (or else recording) time, recording time, event id. */
  predicate Le(a: Stamp, b: Stamp) {
    || Earlier(a.k1, b.k1)
    || (a.k1 == b.k1 && (Earlier(a.k2, b.k2) || (a.k2 == b.k2 && AtMost(a.id, b.id))))
  }

  datatype Value = Text(s: string) | Integer(n: int) | Opaque(json: string)

  /** A bd column, or one key of the bead's metadata. */
  datatype FieldName = Column(name: string) | Meta(name: string)

  datatype Edge = Edge(kind: string, target: string)

  datatype Change =
    | Create(fields: map<FieldName, Value>)
    | SetField(at: FieldName, newValue: Option<Value>)
    | LabelAdd(tag: string)
    | LabelRemove(tag: string)
    | EdgeAdd(edge: Edge)
    | EdgeRemove(edge: Edge)
    | SetPhase(phase: string)
    | Retire(why: string)
    | Comment(key: string)                     // the key is the event's own id
    | Delete
    | Checkpoint(covers: Stamp, gone: bool)    // asserts the state up to a key
    | Tombstone(wholeBead: bool)

  datatype Event = Event(stamp: Stamp, change: Change)

  datatype Facet = Exists | Phase | Field(at: FieldName) | Label(tag: string) | EdgeTo(edge: Edge) | CommentOf(key: string)

  predicate Touches(c: Change, f: Facet) {
    match c
    case Create(fields) => f.Exists? || f.Phase? || (f.Field? && f.at in fields)
    case SetField(name, _) => f == Field(name)
    case LabelAdd(l) => f == Label(l)
    case LabelRemove(l) => f == Label(l)
    case EdgeAdd(e) => f == EdgeTo(e)
    case EdgeRemove(e) => f == EdgeTo(e)
    case SetPhase(_) => f.Phase?
    case Retire(_) => f.Phase?
    case Comment(key) => f == CommentOf(key)
    case Delete => f.Exists?
    case Checkpoint(_, _) => false
    case Tombstone(_) => false
  }

  /** The kinds that touch exactly one facet. */
  predicate Single(c: Change) {
    !c.Create? && !c.Checkpoint? && !c.Tombstone?
  }

  function FacetOf(c: Change): Facet
    requires Single(c)
    ensures Touches(c, FacetOf(c)) && forall f :: Touches(c, f) ==> f == FacetOf(c)
  {
    match c
    case SetField(name, _) => Field(name)
    case LabelAdd(l) => Label(l)
    case LabelRemove(l) => Label(l)
    case EdgeAdd(e) => EdgeTo(e)
    case EdgeRemove(e) => EdgeTo(e)
    case SetPhase(_) => Phase
    case Retire(_) => Phase
    case Comment(key) => CommentOf(key)
    case Delete => Exists
  }

  // ----- order -----

  lemma LeTotal(a: Stamp, b: Stamp)
    ensures Le(a, b) || Le(b, a)
  {
    AtMostTotal(a.id, b.id);
  }

  lemma LeTransitive(a: Stamp, b: Stamp, c: Stamp)
    requires Le(a, b) && Le(b, c)
    ensures Le(a, c)
  {
    if AtMost(a.id, b.id) && AtMost(b.id, c.id) {
      AtMostTransitive(a.id, b.id, c.id);
    }
  }

  lemma LeAntisymmetric(a: Stamp, b: Stamp)
    requires Le(a, b) && Le(b, a)
    ensures a == b
  {
    if AtMost(a.id, b.id) && AtMost(b.id, a.id) {
      AtMostAntisymmetric(a.id, b.id);
    }
  }

  // ----- deciding -----

  /** No two different events share an id; a merge that meets such a pair raises. */
  predicate Identified(es: set<Event>) {
    forall e, f :: e in es && f in es && e.stamp.id == f.stamp.id ==> e == f
  }

  /** Last writer wins: e has the greatest key among the events touching the facet. */
  predicate Decides(es: set<Event>, f: Facet, e: Event) {
    && e in es && Touches(e.change, f)
    && (forall x :: x in es && Touches(x.change, f) ==> Le(x.stamp, e.stamp))
  }

  predicate Touched(es: set<Event>, f: Facet) {
    exists e :: e in es && Touches(e.change, f)
  }

  lemma DeciderUnique(es: set<Event>, f: Facet, a: Event, b: Event)
    requires Identified(es) && Decides(es, f, a) && Decides(es, f, b)
    ensures a == b
  {
    LeAntisymmetric(a.stamp, b.stamp);
  }

  /** Ascending, each event once. */
  ghost predicate SortedOf(s: seq<Event>, es: set<Event>) {
    && (forall e :: e in s <==> e in es)
    && (forall i, j :: 0 <= i < j < |s| ==> Le(s[i].stamp, s[j].stamp))
  }

  lemma {:induction false} EarliestExists(es: set<Event>) returns (e: Event)
    requires es != {}
    ensures e in es && forall x :: x in es ==> Le(e.stamp, x.stamp)
  {
    var y :| y in es;
    var rest := es - {y};
    LeTotal(y.stamp, y.stamp);
    if rest == {} {
      assert es == {y};
      return y;
    }
    e := EarliestExists(rest);
    if Le(y.stamp, e.stamp) {
      forall x | x in es ensures Le(y.stamp, x.stamp) {
        if x in rest { LeTransitive(y.stamp, e.stamp, x.stamp); }
      }
      e := y;
    } else {
      LeTotal(y.stamp, e.stamp);
    }
  }

  method Sort(es: set<Event>) returns (s: seq<Event>)
    ensures SortedOf(s, es)
  {
    s := [];
    var left := es;
    while left != {}
      invariant left <= es && forall e :: e in s <==> e in es && e !in left
      invariant forall i, j :: 0 <= i < j < |s| ==> Le(s[i].stamp, s[j].stamp)
      invariant forall i, x :: 0 <= i < |s| && x in left ==> Le(s[i].stamp, x.stamp)
      decreases left
    {
      ghost var first := EarliestExists(left);
      var e :| e in left && forall x :: x in left ==> Le(e.stamp, x.stamp);
      s := s + [e];
      left := left - {e};
    }
  }

  /** The facets one event assigns, each to the event itself. */
  function Assigned(e: Event): map<Facet, Event> {
    match e.change
    case Create(fields) => (map[Exists := e, Phase := e]) + (map n | n in fields :: Field(n) := e)
    case Checkpoint(_, _) => map[]
    case Tombstone(_) => map[]
    case c => map[FacetOf(c) := e]
  }

  lemma AssignedTouches(e: Event)
    ensures forall f :: f in Assigned(e) <==> Touches(e.change, f)
    ensures forall f :: f in Assigned(e) ==> Assigned(e)[f] == e
  {}

  /** The deciding event of every facet some event touches. */
  ghost predicate DecidersOf(es: set<Event>, out: map<Facet, Event>) {
    && (forall f :: f in out <==> Touched(es, f))
    && (forall f :: f in out ==> Decides(es, f, out[f]))
  }

  /** The first checkpoint of a history that neither creates nor deletes the bead stands for its existence. */
  ghost predicate Vouches(es: set<Event>, e: Event) {
    && e in es && e.change.Checkpoint? && !Touched(es, Exists)
    && forall x :: x in es && x.change.Checkpoint? ==> Le(e.stamp, x.stamp)
  }

  /** The deciders, with a checkpoint for existence where nothing else touches it. */
  ghost predicate DecidersAndVouchers(es: set<Event>, out: map<Facet, Event>) {
    && (forall f :: f in out <==> Touched(es, f) || (f == Exists && exists e :: e in es && e.change.Checkpoint?))
    && (forall f :: f in out ==> Decides(es, f, out[f]) || (f == Exists && Vouches(es, out[f])))
  }

  /** Walk the events in order and let each overwrite the facets it touches; a checkpoint only fills in. */
  method Deciders(es: set<Event>) returns (out: map<Facet, Event>)
    ensures DecidersAndVouchers(es, out)
  {
    var s := Sort(es);
    out := map[];
    ghost var done: set<Event> := {};
    for i := 0 to |s|
      invariant forall e :: e in done <==> e in s[..i]
      invariant DecidersAndVouchers(done, out)
    {
      hide Le, Touches, DecidersAndVouchers;
      LeTotal(s[i].stamp, s[i].stamp);
      assert s[..i + 1] == s[..i] + [s[i]];
      if s[i].change.Checkpoint? {
        FillIn(done, out, s[i]);
        if Exists !in out {
          out := out[Exists := s[i]];
        }
      } else {
        Overwrite(done, out, s[i]);
        out := out + Assigned(s[i]);
      }
      done := done + {s[i]};
    }
    assert s[..|s|] == s;
    assert done == es;
  }

  lemma FillIn(done: set<Event>, out: map<Facet, Event>, e: Event)
    requires DecidersAndVouchers(done, out) && e.change.Checkpoint? && Le(e.stamp, e.stamp)
    requires forall x :: x in done ==> Le(x.stamp, e.stamp)
    ensures DecidersAndVouchers(done + {e}, if Exists in out then out else out[Exists := e])
  {
    hide Le;
    var more := if Exists in out then out else out[Exists := e];
    assert e in done + {e};
    forall f ensures Touched(done + {e}, f) <==> Touched(done, f) {
      if x :| x in done && Touches(x.change, f) { assert x in done + {e}; }
    }
    forall f | f in more
      ensures Decides(done + {e}, f, more[f]) || (f == Exists && Vouches(done + {e}, more[f]))
    {
      if f in out && !Decides(done, f, out[f]) {
        assert Vouches(done, out[f]);
      }
    }
  }

  lemma Overwrite(done: set<Event>, out: map<Facet, Event>, e: Event)
    requires DecidersAndVouchers(done, out) && !e.change.Checkpoint? && Le(e.stamp, e.stamp)
    requires forall x :: x in done ==> Le(x.stamp, e.stamp)
    ensures DecidersAndVouchers(done + {e}, out + Assigned(e))
  {
    hide Le, Touches;
    AssignedTouches(e);
    var more := out + Assigned(e);
    forall f ensures Touched(done + {e}, f) <==> Touched(done, f) || Touches(e.change, f) {
      if x :| x in done && Touches(x.change, f) { assert x in done + {e}; }
      if Touches(e.change, f) { assert e in done + {e}; }
    }
    assert forall x :: x in done + {e} && x.change.Checkpoint? <==> x in done && x.change.Checkpoint?;
    forall f | f in more
      ensures Decides(done + {e}, f, more[f]) || (f == Exists && Vouches(done + {e}, more[f]))
    {
      if f in Assigned(e) {
        assert Decides(done + {e}, f, e);
      } else if Decides(done, f, out[f]) {
        assert Decides(done + {e}, f, out[f]);
      } else {
        assert Vouches(done, out[f]);
        assert Vouches(done + {e}, out[f]);
      }
    }
  }

  /** Without checkpoints every decider is the greatest event of its facet. */
  lemma NoVouchers(es: set<Event>, out: map<Facet, Event>)
    requires DecidersAndVouchers(es, out) && forall e :: e in es ==> !e.change.Checkpoint?
    ensures DecidersOf(es, out)
  {
    hide Le, Touches;
  }

  lemma SubsetDecides(small: set<Event>, big: set<Event>, f: Facet, e: Event)
    requires small <= big && e in small && Decides(big, f, e)
    ensures Decides(small, f, e)
  {}

  lemma DeciderTouches(es: set<Event>, f: Facet, e: Event)
    requires Decides(es, f, e)
    ensures Touched(es, f) && Touches(e.change, f) && e in es
  {}

  lemma TouchedBy(es: set<Event>, f: Facet, e: Event)
    requires e in es && Touches(e.change, f)
    ensures Touched(es, f)
  {}

  lemma DecidersAt(es: set<Event>, out: map<Facet, Event>, f: Facet)
    requires DecidersOf(es, out)
    ensures f in out <==> Touched(es, f)
    ensures f in out ==> Decides(es, f, out[f]) && out[f] in es && Touches(out[f].change, f)
  {}

  lemma DeciderBeats(es: set<Event>, f: Facet, e: Event, x: Event)
    requires Decides(es, f, e) && x in es && Touches(x.change, f)
    ensures Le(x.stamp, e.stamp)
  {}

  // ----- deciders as a value -----

  lemma {:induction false} LatestExists(es: set<Event>, f: Facet) returns (e: Event)
    requires Touched(es, f)
    ensures Decides(es, f, e)
  {
    hide Le, Touches;
    var y :| y in es && Touches(y.change, f);
    var rest := es - {y};
    LeTotal(y.stamp, y.stamp);
    if Touched(rest, f) {
      e := LatestExists(rest, f);
      if Le(e.stamp, y.stamp) {
        forall x | x in es && Touches(x.change, f) ensures Le(x.stamp, y.stamp) {
          if x != y { LeTransitive(x.stamp, e.stamp, y.stamp); }
        }
        e := y;
      } else {
        LeTotal(e.stamp, y.stamp);
      }
    } else {
      forall x | x in es && Touches(x.change, f) ensures x == y {
        assert x in rest ==> Touched(rest, f);
      }
      e := y;
    }
  }

  lemma SomeoneDecides(es: set<Event>, f: Facet)
    requires Touched(es, f)
    ensures exists e :: Decides(es, f, e)
  {
    var e := LatestExists(es, f);
  }

  ghost function FacetsOf(es: set<Event>): set<Facet> {
    set e, f | e in es && f in Assigned(e).Keys :: f
  }

  ghost function DeciderOf(es: set<Event>, f: Facet): (e: Event)
    requires Touched(es, f)
    ensures Decides(es, f, e)
  {
    SomeoneDecides(es, f);
    var e :| Decides(es, f, e);
    e
  }

  lemma FacetsTouched(es: set<Event>, f: Facet)
    ensures f in FacetsOf(es) <==> Touched(es, f)
  {
    forall e ensures f in Assigned(e).Keys <==> Touches(e.change, f) {
      AssignedTouches(e);
    }
  }

  /** Every touched facet with its decider. */
  ghost function DeciderMap(es: set<Event>): (out: map<Facet, Event>)
    ensures DecidersOf(es, out)
  {
    assert forall f :: f in FacetsOf(es) <==> Touched(es, f) by {
      forall f ensures f in FacetsOf(es) <==> Touched(es, f) { FacetsTouched(es, f); }
    }
    map f | f in FacetsOf(es) :: DeciderOf(es, f)
  }

  lemma DecidersUnique(es: set<Event>, a: map<Facet, Event>, b: map<Facet, Event>)
    requires Identified(es) && DecidersOf(es, a) && DecidersOf(es, b)
    ensures a == b
  {
    hide Touched, Decides;
    assert a.Keys == b.Keys;
    forall f | f in a ensures a[f] == b[f] {
      DeciderUnique(es, f, a[f], b[f]);
    }
  }
}
