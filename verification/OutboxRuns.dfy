/** Any number of publisher processes on one outbox: every interleaving of their transactions,
    clock readings, transport calls and crashes, and what holds throughout. */
module OutboxRuns {
  import opened Wrappers
  import opened Outbox
  import opened Totals

  /** An enqueue that passed its check and has not inserted yet. */
  datatype Candidate = Candidate(key: Key, row: Row)

  /** A flush in progress: it holds the row as it read it in its claim. */
  datatype Flight =
    | Taken(key: Key, snap: Row)
    | Sending(key: Key, snap: Row, readAt: int)
    | Deciding(key: Key, snap: Row, readAt: int, outcome: Outcome, call: Option<nat>)

  /** A transport call and the status it was answered with. */
  datatype Call = Call(key: Key, body: string, readAt: int, status: int)

  /** What has happened, for stating properties; no step looks at it. */
  datatype History = History(
    inserted: nat,             // rows ever inserted
    born: set<Candidate>,      // every row as inserted
    calls: seq<Call>,          // transport calls
    settled: map<Key, nat>,    // per retained row, settlements made while owning its lease
    done: set<nat>             // calls whose answer was settled while owning the row's lease
  )

  datatype System = System(
    db: Db,
    clock: int,
    live: set<Owner>,
    spent: set<Owner>,         // owner names ever used
    pending: map<Owner, Candidate>,
    flights: map<Owner, Flight>,
    history: History
  )

  datatype Step =
    | Tick(to: int)
    | Join(owner: Owner)
    | Crash(owner: Owner)
    | RefuseToken(owner: Owner)
    | CheckEnqueue(owner: Owner, key: Key, row: Row, now: int)
    | InsertRow(owner: Owner)
    | ClaimRow(owner: Owner, sources: set<string>, force: bool, now: int, key: Key)
    | ReadClock(owner: Owner)
    | Send(owner: Owner, status: int)
    | SettleRow(owner: Owner)
    | ReleaseLeases(owner: Owner)

  predicate Initial(s: System) {
    && s.db == Db(map[], map[], map[]) && s.live == {} && s.spent == {}
    && s.pending == map[] && s.flights == map[] && s.history == History(0, {}, [], map[], {})
  }

  /** The publisher is up and its database lock is not held by an enqueue. */
  predicate Free(s: System, owner: Owner) {
    owner in s.live && owner !in s.pending
  }

  /** When a step may happen, with at most `width` publishers up at once. */
  ghost predicate Enabled(cfg: Config, width: nat, s: System, step: Step) {
    match step
    case Tick(to) => s.clock <= to
    case Join(o) => o !in s.spent && |s.live| < width
    case Crash(o) => o in s.live
    case RefuseToken(o) => Free(s, o)
    case CheckEnqueue(o, _, row, now) =>
      Free(s, o) && now <= s.clock && IsNew(cfg, row, now) && cfg.leastBody <= |row.body|
    case InsertRow(o) => o in s.live && o in s.pending
    case ClaimRow(o, sources, force, now, key) =>
      Free(s, o) && o !in s.flights && now <= s.clock && Chosen(s.db, sources, force, now, key)
    case ReadClock(o) => o in s.live && o in s.flights && s.flights[o].Taken?
    case Send(o, _) => o in s.live && o in s.flights && s.flights[o].Sending?
    case SettleRow(o) => Free(s, o) && o in s.flights && s.flights[o].Deciding?
    case ReleaseLeases(o) => Free(s, o)
  }

  function AfterRead(f: Flight, clock: int): Flight {
    if clock >= f.snap.expiresAt then Deciding(f.key, f.snap, clock, PastExpiry, None)
    else if clock >= f.snap.deadlineAt then Deciding(f.key, f.snap, clock, PastDeadline, None)
    else Sending(f.key, f.snap, clock)
  }

  function SettledAfter(settled: map<Key, nat>, db: Db, db': Db, key: Key, owner: Owner): map<Key, nat> {
    if !Owns(db, key, owner) then settled
    else if key in db'.rows then Bump(settled, key)
    else settled - {key}
  }

  function DoneAfter(done: set<nat>, db: Db, f: Flight, owner: Owner): set<nat>
    requires f.Deciding?
  {
    if Owns(db, f.key, owner) && f.call.Some? then done + {f.call.value} else done
  }

  ghost function After(cfg: Config, s: System, step: Step): System {
    match step
    case Tick(to) => s.(clock := to)
    case Join(o) => s.(live := s.live + {o}, spent := s.spent + {o})
    case Crash(o) => s.(live := s.live - {o}, pending := s.pending - {o}, flights := s.flights - {o})
    case RefuseToken(_) => s.(db := Drop(s.db, CredentialUnavailable))
    case CheckEnqueue(o, key, row, _) => AfterCheck(cfg, s, o, key, row)
    case InsertRow(o) => if o in s.pending then AfterInsert(s, o, s.pending[o]) else s
    case ClaimRow(o, _, _, now, key) => if key in s.db.rows then AfterClaim(cfg, s, o, key, now) else s
    case ReadClock(o) =>
      if o in s.flights then s.(flights := s.flights[o := AfterRead(s.flights[o], s.clock)]) else s
    case Send(o, status) => if o in s.flights && s.flights[o].Sending? then AfterSend(s, o, status) else s
    case SettleRow(o) => if o in s.flights && s.flights[o].Deciding? then AfterSettle(cfg, s, o) else s
    case ReleaseLeases(o) => s.(db := Release(s.db, o))
  }

  ghost function AfterCheck(cfg: Config, s: System, o: Owner, key: Key, row: Row): System {
    match Admit(cfg, s.db, key, row.body)
    case Duplicate(_) => s
    case Refused(r) => s.(db := Drop(s.db, r))
    case Admitted => s.(pending := s.pending[o := Candidate(key, row)])
  }

  function AfterInsert(s: System, o: Owner, c: Candidate): System {
    if c.key in s.db.rows then s.(pending := s.pending - {o})
    else
      s.(db := Insert(s.db, c.key, c.row), pending := s.pending - {o},
         history := s.history.(inserted := s.history.inserted + 1, born := s.history.born + {c},
                               settled := s.history.settled[c.key := 0]))
  }

  function AfterClaim(cfg: Config, s: System, o: Owner, key: Key, now: int): System
    requires key in s.db.rows
  {
    s.(db := Claim(cfg, s.db, key, o, now), flights := s.flights[o := Taken(key, s.db.rows[key])])
  }

  function AfterSend(s: System, o: Owner, status: int): System
    requires o in s.flights && s.flights[o].Sending?
  {
    var f := s.flights[o];
    s.(flights := s.flights[o := Deciding(f.key, f.snap, f.readAt, Answered(status), Some(|s.history.calls|))],
       history := s.history.(calls := s.history.calls + [Call(f.key, f.snap.body, f.readAt, status)]))
  }

  function AfterSettle(cfg: Config, s: System, o: Owner): System
    requires o in s.flights && s.flights[o].Deciding?
  {
    var f := s.flights[o];
    var db' := Settle(cfg, s.db, f.key, o, f.snap, f.readAt, f.outcome);
    s.(db := db', flights := s.flights - {o},
       history := s.history.(settled := SettledAfter(s.history.settled, s.db, db', f.key, o),
                             done := DoneAfter(s.history.done, s.db, f, o)))
  }

  /** A run: states[i + 1] follows from states[i] by steps[i]. */
  ghost predicate IsRun(cfg: Config, width: nat, states: seq<System>, steps: seq<Step>) {
    && |states| == |steps| + 1 && Initial(states[0])
    && forall i :: 0 <= i < |steps| ==> Enabled(cfg, width, states[i], steps[i]) && states[i + 1] == After(cfg, states[i], steps[i])
  }

  // ----- who is up -----

  ghost predicate Staffed(width: nat, s: System) {
    && |s.live| <= width && s.live <= s.spent
    && s.pending.Keys <= s.live && s.flights.Keys <= s.live
    && (forall o :: o in s.pending ==> s.pending[o].row.lease.None?)
  }

  lemma StaffedStep(cfg: Config, width: nat, s: System, step: Step)
    requires Staffed(width, s) && Enabled(cfg, width, s, step)
    ensures Staffed(width, After(cfg, s, step))
  {
    hide Settle, Retry, Admit, Chosen, Drop, Claim, Release, Insert, DoneAfter, Increment;
    match step
    case Crash(o) =>
      assert |s.live - {o}| <= |s.live|;
    case _ =>
  }

  /** A settlement touches no row but its own, and that one only under its own lease. */
  lemma SettleRows(cfg: Config, db: Db, key: Key, owner: Owner, snap: Row, now: int, outcome: Outcome)
    ensures var db' := Settle(cfg, db, key, owner, snap, now, outcome);
      && db'.rows.Keys <= db.rows.Keys && db.rows.Keys - {key} <= db'.rows.Keys
      && (forall k :: k in db'.rows && k != key ==> db'.rows[k] == db.rows[k])
      && (!Owns(db, key, owner) ==> db' == db)
      && (Owns(db, key, owner) && key in db'.rows ==>
            outcome.Answered? && snap.attempts + 1 < cfg.maxAttempts
            && db'.rows[key] == Retry(cfg, db.rows[key], snap.attempts + 1, now, ReasonFor(outcome.status)))
  {}

  // ----- the books -----

  ghost predicate Booked(s: System) {
    Balanced(s.db, s.history.inserted)
  }

  lemma BookedStep(cfg: Config, width: nat, s: System, step: Step)
    requires Booked(s) && Enabled(cfg, width, s, step)
    ensures Booked(After(cfg, s, step))
  {
    hide Balanced, Settle, Admit, Chosen, IsNew, Drop, Free, Bump;
    match step
    case RefuseToken(_) => DropBalances(s.db, CredentialUnavailable, s.history.inserted);
    case CheckEnqueue(o, key, row, _) =>
      var a := Admit(cfg, s.db, key, row.body);
      if a.Refused? {
        DropBalances(s.db, a.reason, s.history.inserted);
      }
    case InsertRow(o) => InsertBalances(s.db, s.pending[o].key, s.pending[o].row, s.history.inserted);
    case ClaimRow(o, _, _, now, key) =>
      if key in s.db.rows {
        ReplaceBalances(s.db, key, s.db.rows[key].(lease := Some(Lease(o, now + cfg.lease))), s.history.inserted);
      }
    case SettleRow(o) =>
      var f := s.flights[o];
      SettleBalances(cfg, s.db, f.key, o, f.snap, f.readAt, f.outcome, s.history.inserted);
    case ReleaseLeases(o) => ReleaseBalances(s.db, o, s.history.inserted);
    case _ =>
  }

  // ----- flights and attempts -----

  /** While a flush owns its row, the row is as the flush read it. */
  ghost predicate Current(s: System, o: Owner)
    requires o in s.flights
  {
    var f := s.flights[o];
    Owns(s.db, f.key, o) ==> s.db.rows[f.key].(lease := None) == f.snap.(lease := None)
  }

  ghost predicate Faithful(s: System) {
    forall o :: o in s.flights ==> Current(s, o)
  }

  /** Rows not held by a flush may change freely; held ones only in their lease. */
  lemma FaithfulKept(s: System, s': System)
    requires Faithful(s) && s'.flights.Keys <= s.flights.Keys
    requires forall o :: o in s'.flights ==> s'.flights[o].key == s.flights[o].key && s'.flights[o].snap == s.flights[o].snap
    requires forall o, k :: o in s'.flights && k == s.flights[o].key && Owns(s'.db, k, o) ==>
      Owns(s.db, k, o) && s'.db.rows[k].(lease := None) == s.db.rows[k].(lease := None)
    ensures Faithful(s')
  {
    forall o | o in s'.flights ensures Current(s', o) {
      assert Current(s, o);
    }
  }

  lemma FaithfulClaim(cfg: Config, s: System, o: Owner, key: Key, now: int)
    requires Faithful(s) && key in s.db.rows && o !in s.flights
    ensures Faithful(AfterClaim(cfg, s, o, key, now))
  {
    var s' := AfterClaim(cfg, s, o, key, now);
    forall p | p in s'.flights ensures Current(s', p) {
      assert p != o ==> Current(s, p);
    }
  }

  lemma FaithfulSettle(cfg: Config, s: System, o: Owner)
    requires Faithful(s) && o in s.flights && s.flights[o].Deciding?
    ensures Faithful(AfterSettle(cfg, s, o))
  {
    hide Settle, Faithful;
    var f := s.flights[o];
    SettleRows(cfg, s.db, f.key, o, f.snap, f.readAt, f.outcome);
    FaithfulKept(s, AfterSettle(cfg, s, o));
  }

  lemma FaithfulStep(cfg: Config, width: nat, s: System, step: Step)
    requires Faithful(s) && Staffed(width, s) && Enabled(cfg, width, s, step)
    ensures Faithful(After(cfg, s, step))
  {
    hide AfterSettle, AfterClaim, Admit, Drop, Faithful;
    match step
    case SettleRow(o) => FaithfulSettle(cfg, s, o);
    case ClaimRow(o, _, _, now, key) => FaithfulClaim(cfg, s, o, key, now);
    case _ => FaithfulKept(s, After(cfg, s, step));
  }

  /** Fewer attempts than the limit, and as many as settlements made under the row's own lease. */
  ghost predicate Counted(cfg: Config, s: System) {
    && s.history.settled.Keys == s.db.rows.Keys
    && (forall k :: k in s.db.rows ==> s.db.rows[k].attempts < cfg.maxAttempts && s.history.settled[k] == s.db.rows[k].attempts)
    && (forall o :: o in s.pending ==> s.pending[o].row.attempts == 0)
  }

  lemma CountedSettle(cfg: Config, s: System, o: Owner)
    requires Counted(cfg, s) && o in s.flights && s.flights[o].Deciding? && Current(s, o)
    ensures Counted(cfg, AfterSettle(cfg, s, o))
  {
    hide Settle, Backoff;
    var f := s.flights[o];
    SettleRows(cfg, s.db, f.key, o, f.snap, f.readAt, f.outcome);
  }

  lemma CountedInsert(cfg: Config, s: System, o: Owner)
    requires ValidConfig(cfg) && Counted(cfg, s) && o in s.pending
    ensures Counted(cfg, AfterInsert(s, o, s.pending[o]))
  {}

  lemma CountedKept(cfg: Config, s: System, s': System)
    requires Counted(cfg, s) && s'.history.settled == s.history.settled && s'.db.rows.Keys == s.db.rows.Keys
    requires forall k :: k in s'.db.rows ==> s'.db.rows[k].attempts == s.db.rows[k].attempts
    requires forall o :: o in s'.pending ==> s'.pending[o].row.attempts == 0
    ensures Counted(cfg, s')
  {}

  lemma CountedStep(cfg: Config, width: nat, s: System, step: Step)
    requires ValidConfig(cfg) && Counted(cfg, s) && Faithful(s) && Enabled(cfg, width, s, step)
    ensures Counted(cfg, After(cfg, s, step))
  {
    hide AfterSettle, AfterInsert, Admit, Chosen, Drop, Current, ValidConfig, Counted;
    match step
    case SettleRow(o) => CountedSettle(cfg, s, o);
    case InsertRow(o) => CountedInsert(cfg, s, o);
    case _ =>
      PendingUntried(cfg, s);
      CountedKept(cfg, s, After(cfg, s, step));
  }

  lemma PendingUntried(cfg: Config, s: System)
    requires Counted(cfg, s)
    ensures forall o :: o in s.pending ==> s.pending[o].row.attempts == 0
  {}

  // ----- what is sent -----

  predicate SameRequest(a: Row, b: Row) {
    a.source == b.source && a.runId == b.runId && a.body == b.body && a.expiresAt == b.expiresAt && a.deadlineAt == b.deadlineAt
  }

  /** Some inserted row of this key carried exactly this request. */
  ghost predicate BornAs(born: set<Candidate>, key: Key, row: Row) {
    exists c :: c in born && c.key == key && SameRequest(c.row, row)
  }

  /** The call carried the bytes of an inserted row, after a clock reading before its end. */
  ghost predicate Lawful(born: set<Candidate>, call: Call) {
    exists c :: c in born && c.key == call.key && c.row.body == call.body
      && call.readAt < c.row.deadlineAt && call.readAt < c.row.expiresAt
  }

  ghost predicate Traced(s: System) {
    && (forall k :: k in s.db.rows ==> BornAs(s.history.born, k, s.db.rows[k]))
    && (forall o :: o in s.flights ==> BornAs(s.history.born, s.flights[o].key, s.flights[o].snap))
    && (forall o :: o in s.flights && s.flights[o].Sending? ==>
          s.flights[o].readAt < s.flights[o].snap.deadlineAt && s.flights[o].readAt < s.flights[o].snap.expiresAt)
    && (forall i :: 0 <= i < |s.history.calls| ==> Lawful(s.history.born, s.history.calls[i]))
  }

  lemma BornGrows(born: set<Candidate>, c: Candidate, key: Key, row: Row)
    requires BornAs(born, key, row)
    ensures BornAs(born + {c}, key, row)
  {}

  lemma LawfulGrows(born: set<Candidate>, c: Candidate, call: Call)
    requires Lawful(born, call)
    ensures Lawful(born + {c}, call)
  {}

  lemma TracedStep(cfg: Config, width: nat, s: System, step: Step)
    requires Traced(s) && Enabled(cfg, width, s, step)
    ensures Traced(After(cfg, s, step))
  {
    hide Settle, Admit, Drop, Backoff, BornAs, Lawful;
    match step
    case InsertRow(o) => TracedInsert(s, o);
    case Send(o, status) => TracedSend(s, o, status);
    case SettleRow(o) =>
      var f := s.flights[o];
      SettleRows(cfg, s.db, f.key, o, f.snap, f.readAt, f.outcome);
      TracedSettle(cfg, s, o);
    case ClaimRow(o, _, _, now, key) => TracedClaim(cfg, s, o, key, now);
    case ReleaseLeases(o) =>
      forall k | k in s.db.rows ensures BornAs(s.history.born, k, Release(s.db, o).rows[k]) {
        SameRequestBorn(s.history.born, k, s.db.rows[k], Release(s.db, o).rows[k]);
      }
    case _ =>
  }

  lemma SameRequestBorn(born: set<Candidate>, key: Key, a: Row, b: Row)
    requires BornAs(born, key, a) && SameRequest(a, b)
    ensures BornAs(born, key, b)
  {}

  lemma TracedInsert(s: System, o: Owner)
    requires Traced(s) && o in s.pending
    ensures Traced(AfterInsert(s, o, s.pending[o]))
  {
    hide BornAs, Lawful;
    var c, born := s.pending[o], s.history.born;
    if c.key !in s.db.rows {
      assert c in born + {c} && SameRequest(c.row, c.row);
      NewBorn(born, c);
      forall k | k in s.db.rows ensures BornAs(born + {c}, k, s.db.rows[k]) { BornGrows(born, c, k, s.db.rows[k]); }
      forall p | p in s.flights ensures BornAs(born + {c}, s.flights[p].key, s.flights[p].snap) {
        BornGrows(born, c, s.flights[p].key, s.flights[p].snap);
      }
      forall i | 0 <= i < |s.history.calls| ensures Lawful(born + {c}, s.history.calls[i]) {
        LawfulGrows(born, c, s.history.calls[i]);
      }
    }
  }

  lemma NewBorn(born: set<Candidate>, c: Candidate)
    ensures BornAs(born + {c}, c.key, c.row)
  {
    assert c in born + {c} && SameRequest(c.row, c.row);
  }

  lemma TracedSend(s: System, o: Owner, status: int)
    requires Traced(s) && o in s.flights && s.flights[o].Sending?
    ensures Traced(AfterSend(s, o, status))
  {
    var f := s.flights[o];
    assert BornAs(s.history.born, f.key, f.snap);
    var c :| c in s.history.born && c.key == f.key && SameRequest(c.row, f.snap);
    assert Lawful(s.history.born, Call(f.key, f.snap.body, f.readAt, status));
  }

  lemma TracedClaim(cfg: Config, s: System, o: Owner, key: Key, now: int)
    requires Traced(s) && key in s.db.rows
    ensures Traced(AfterClaim(cfg, s, o, key, now))
  {
    hide BornAs, Lawful;
    var s' := AfterClaim(cfg, s, o, key, now);
    SameRequestBorn(s.history.born, key, s.db.rows[key], s'.db.rows[key]);
  }

  lemma TracedSettle(cfg: Config, s: System, o: Owner)
    requires Traced(s) && o in s.flights && s.flights[o].Deciding?
    ensures Traced(AfterSettle(cfg, s, o))
  {
    hide BornAs, Lawful, Settle, Backoff;
    var f, s' := s.flights[o], AfterSettle(cfg, s, o);
    SettleRows(cfg, s.db, f.key, o, f.snap, f.readAt, f.outcome);
    forall k | k in s'.db.rows ensures BornAs(s.history.born, k, s'.db.rows[k]) {
      SameRequestBorn(s.history.born, k, s.db.rows[k], s'.db.rows[k]);
    }
  }

  // ----- how much is retained -----

  ghost function PendingSizes(pending: map<Owner, Candidate>): map<Owner, nat> {
    map o | o in pending :: |pending[o].row.body|
  }

  ghost function PendingBytes(pending: map<Owner, Candidate>): nat {
    Total(PendingSizes(pending))
  }

  /** Rows and bytes, counting enqueues that are past their check as already in. */
  ghost predicate Bounded(cfg: Config, width: nat, s: System) {
    && |s.db.rows| + |s.pending| <= MostRows(cfg, width)
    && (forall k :: k in s.db.rows ==> cfg.leastBody <= |s.db.rows[k].body|)
    && (forall o :: o in s.pending ==> cfg.leastBody <= |s.pending[o].row.body| <= cfg.maxBytes)
    && Bytes(s.db.rows) + PendingBytes(s.pending) <= Capacity(cfg, width)
  }

  /** The rows that fit by number and, were all as short as can be, by size. */
  function Places(cfg: Config): nat
    requires cfg.leastBody >= 1
  {
    var bySize := cfg.maxBytes / cfg.leastBody;
    if cfg.maxRecords <= bySize then cfg.maxRecords else bySize
  }

  /** The most rows ever retained: all publishers but one may insert beyond the places. */
  function MostRows(cfg: Config, width: nat): nat {
    if cfg.leastBody == 0 || Places(cfg) == 0 || width == 0 then 0 else Places(cfg) + width - 1
  }

  lemma {:induction false} FloorDivides(n: nat, least: nat, limit: nat)
    requires least >= 1
    ensures n * least <= limit <==> n <= limit / least
  {
    var q := limit / least;
    assert q * least <= limit < q * least + least;
    if n <= q {
      MulMonotone(n, q, least);
    } else {
      MulMonotone(q + 1, n, least);
    }
  }

  lemma MulMonotone(a: nat, b: nat, c: nat)
    requires a <= b
    ensures a * c <= b * c
  {
    assert (b - a) * c >= 0;
  }

  /** A check that passes saw fewer rows than there are places. */
  lemma PlaceLeft(cfg: Config, rows: map<Key, Row>, body: string)
    requires cfg.leastBody >= 1 && cfg.leastBody <= |body| && |rows| < cfg.maxRecords && Bytes(rows) + |body| <= cfg.maxBytes
    requires forall k :: k in rows ==> cfg.leastBody <= |rows[k].body|
    ensures |rows| < Places(cfg)
  {
    hide Total;
    assert Sizes(rows).Keys == rows.Keys;
    TotalFloor(Sizes(rows), cfg.leastBody);
    Distribute(|rows| + 1, cfg.leastBody);
    FloorDivides(|rows| + 1, cfg.leastBody, cfg.maxBytes);
  }

  function Capacity(cfg: Config, width: nat): nat {
    width * cfg.maxBytes
  }

  /** Rows may change in any way that keeps their keys and bodies, and may disappear. */
  ghost predicate RowsShrink(a: map<Key, Row>, b: map<Key, Row>) {
    b.Keys <= a.Keys && forall k :: k in b ==> b[k].body == a[k].body
  }

  lemma {:induction false} BytesShrink(a: map<Key, Row>, b: map<Key, Row>)
    requires RowsShrink(a, b)
    ensures |b| <= |a| && Bytes(b) <= Bytes(a)
    decreases |a|
  {
    hide Total;
    if k :| k in a && k !in b {
      var a' := a - {k};
      assert a'.Keys == a.Keys - {k};
      BytesShrink(a', b);
      TotalRemove(Sizes(a), k);
      SizesRemove(a, k);
    } else {
      assert a.Keys == b.Keys;
      assert Sizes(a) == Sizes(b);
    }
  }

  lemma SizesRemove(rows: map<Key, Row>, key: Key)
    ensures Sizes(rows - {key}) == Sizes(rows) - {key}
  {}

  lemma SizesInsert(rows: map<Key, Row>, key: Key, row: Row)
    ensures Sizes(rows[key := row]) == Sizes(rows)[key := |row.body|]
  {}

  lemma BytesInsert(rows: map<Key, Row>, key: Key, row: Row)
    requires key !in rows
    ensures Bytes(rows[key := row]) == Bytes(rows) + |row.body|
  {
    hide Total;
    TotalInsert(Sizes(rows), key, |row.body|);
    SizesInsert(rows, key, row);
  }

  lemma PendingSizesAdd(pending: map<Owner, Candidate>, o: Owner, c: Candidate)
    ensures PendingSizes(pending[o := c]) == PendingSizes(pending)[o := |c.row.body|]
  {}

  lemma PendingAdd(pending: map<Owner, Candidate>, o: Owner, c: Candidate)
    requires o !in pending
    ensures PendingBytes(pending[o := c]) == PendingBytes(pending) + |c.row.body|
    ensures |pending[o := c]| == |pending| + 1
  {
    hide Total;
    TotalInsert(PendingSizes(pending), o, |c.row.body|);
    PendingSizesAdd(pending, o, c);
    OneMore(pending, o, c);
  }

  lemma PendingDrop(pending: map<Owner, Candidate>, o: Owner)
    requires o in pending
    ensures PendingBytes(pending) == PendingBytes(pending - {o}) + |pending[o].row.body|
    ensures |pending - {o}| == |pending| - 1
  {
    var rest := pending - {o};
    PendingAdd(rest, o, pending[o]);
    assert rest[o := pending[o]] == pending;
  }

  /** An enqueue that passes its check leaves room for everyone else's. */
  lemma AdmittedFits(cfg: Config, width: nat, s: System, o: Owner, key: Key, row: Row)
    requires ValidConfig(cfg) && Bounded(cfg, width, s) && Staffed(width, s) && Free(s, o)
    requires Admit(cfg, s.db, key, row.body).Admitted? && cfg.leastBody <= |row.body|
    ensures Bounded(cfg, width, s.(pending := s.pending[o := Candidate(key, row)]))
  {
    hide Total, Bytes, PendingBytes, Places, Capacity;
    CapacitySplit(cfg, width);
    PlaceLeft(cfg, s.db.rows, row.body);
    PendingAdd(s.pending, o, Candidate(key, row));
    OthersFit(s.live, s.pending, o);
    PendingAtMost(s.pending, cfg.maxBytes, width - 1);
  }

  lemma CapacitySplit(cfg: Config, width: nat)
    ensures width >= 1 ==> Capacity(cfg, width) == (width - 1) * cfg.maxBytes + cfg.maxBytes
  {
    if width >= 1 {
      Distribute(width, cfg.maxBytes);
    }
  }

  lemma OthersFit(live: set<Owner>, pending: map<Owner, Candidate>, o: Owner)
    requires o in live && o !in pending && pending.Keys <= live
    ensures |pending| + 1 <= |live|
  {
    SubsetSize(pending.Keys + {o}, live);
  }

  lemma {:induction false} SubsetSize(a: set<Owner>, b: set<Owner>)
    requires a <= b
    ensures |a| <= |b|
  {
    assert |b - a| + |a| == |b|;
  }

  lemma PendingAtMost(pending: map<Owner, Candidate>, b: nat, n: nat)
    requires |pending| <= n && forall o :: o in pending ==> |pending[o].row.body| <= b
    ensures PendingBytes(pending) <= n * b
  {
    hide Total;
    assert PendingSizes(pending).Keys == pending.Keys;
    TotalBound(PendingSizes(pending), b, n);
  }

  lemma BoundedInsert(cfg: Config, width: nat, s: System, o: Owner)
    requires Bounded(cfg, width, s) && o in s.pending
    ensures Bounded(cfg, width, AfterInsert(s, o, s.pending[o]))
  {
    hide Bytes, PendingBytes, Capacity;
    var c := s.pending[o];
    PendingDrop(s.pending, o);
    if c.key !in s.db.rows {
      BytesInsert(s.db.rows, c.key, c.row);
      OneMore(s.db.rows, c.key, c.row);
    }
  }

  lemma BoundedRows(cfg: Config, width: nat, s: System, s': System)
    requires Bounded(cfg, width, s) && s'.pending == s.pending && RowsShrink(s.db.rows, s'.db.rows)
    ensures Bounded(cfg, width, s')
  {
    hide Bytes, PendingBytes;
    BytesShrink(s.db.rows, s'.db.rows);
  }

  lemma BoundedCrash(cfg: Config, width: nat, s: System, s': System, o: Owner)
    requires Bounded(cfg, width, s) && s'.pending == s.pending - {o} && s'.db == s.db
    ensures Bounded(cfg, width, s')
  {
    hide Bytes, PendingBytes, Capacity;
    if o in s.pending {
      PendingDrop(s.pending, o);
    } else {
      NothingPending(s.pending, o);
    }
  }

  lemma NothingPending(pending: map<Owner, Candidate>, o: Owner)
    requires o !in pending
    ensures pending - {o} == pending
  {}

  lemma BoundedStep(cfg: Config, width: nat, s: System, step: Step)
    requires ValidConfig(cfg) && Bounded(cfg, width, s) && Staffed(width, s) && Enabled(cfg, width, s, step)
    ensures Bounded(cfg, width, After(cfg, s, step))
  {
    hide Settle, Drop, Backoff, IsNew, Bounded, Admit;
    match step
    case Crash(o) => BoundedCrash(cfg, width, s, After(cfg, s, step), o);
    case CheckEnqueue(o, key, row, _) =>
      if Admit(cfg, s.db, key, row.body).Admitted? {
        AdmittedFits(cfg, width, s, o, key, row);
      } else {
        BoundedRows(cfg, width, s, After(cfg, s, step));
      }
    case InsertRow(o) => BoundedInsert(cfg, width, s, o);
    case SettleRow(o) =>
      var f := s.flights[o];
      SettleRows(cfg, s.db, f.key, o, f.snap, f.readAt, f.outcome);
      BoundedRows(cfg, width, s, After(cfg, s, step));
    case _ => BoundedRows(cfg, width, s, After(cfg, s, step));
  }

  // ----- every reachable state -----

  ghost predicate Inv(cfg: Config, width: nat, s: System) {
    Staffed(width, s) && Booked(s) && Faithful(s) && Counted(cfg, s) && Traced(s) && Bounded(cfg, width, s)
  }

  lemma BookedInitial(s: System)
    requires Initial(s)
    ensures Booked(s)
  {
    hide Total;
    TotalEmpty<Reason>(s.db.reasons);
    TotalEmpty<Reason>(AfterInsertion(s.db.reasons));
  }

  lemma BoundedInitial(cfg: Config, width: nat, s: System)
    requires ValidConfig(cfg) && Initial(s)
    ensures Bounded(cfg, width, s)
  {
    hide Total;
    TotalEmpty<Key>(Sizes(s.db.rows));
    TotalEmpty<Owner>(PendingSizes(s.pending));
  }

  lemma InvInitial(cfg: Config, width: nat, s: System)
    requires ValidConfig(cfg) && Initial(s)
    ensures Inv(cfg, width, s)
  {
    hide Booked, Bounded;
    BookedInitial(s);
    BoundedInitial(cfg, width, s);
  }

  lemma InvStep(cfg: Config, width: nat, s: System, step: Step)
    requires ValidConfig(cfg) && Inv(cfg, width, s) && Enabled(cfg, width, s, step)
    ensures Inv(cfg, width, After(cfg, s, step))
  {
    hide Enabled, After, Staffed, Booked, Faithful, Counted, Traced, Bounded;
    StaffedStep(cfg, width, s, step);
    BookedStep(cfg, width, s, step);
    FaithfulStep(cfg, width, s, step);
    CountedStep(cfg, width, s, step);
    TracedStep(cfg, width, s, step);
    BoundedStep(cfg, width, s, step);
  }

  /** Whatever the publishers do and in whatever order, the invariant holds throughout. */
  lemma {:induction false} InvAlways(cfg: Config, width: nat, states: seq<System>, steps: seq<Step>, i: nat)
    requires ValidConfig(cfg) && IsRun(cfg, width, states, steps) && i < |states|
    ensures Inv(cfg, width, states[i])
    decreases i
  {
    hide Inv, Enabled, After, Initial;
    if i == 0 {
      InvInitial(cfg, width, states[0]);
    } else {
      InvAlways(cfg, width, states, steps, i - 1);
      InvStep(cfg, width, states[i - 1], steps[i - 1]);
    }
  }

  // ----- the properties of every run -----

  /** Conservation: rows ever inserted are retained, published or dropped; the counters agree. */
  lemma Conserved(cfg: Config, width: nat, states: seq<System>, steps: seq<Step>, i: nat)
    requires ValidConfig(cfg) && IsRun(cfg, width, states, steps) && i < |states|
    ensures var s := states[i];
      && s.history.inserted == |s.db.rows| + Value(s.db.counters, Published) + InsertedDrops(s.db.reasons)
      && Value(s.db.counters, Dropped) == Total(s.db.reasons)
      && Value(s.db.counters, ExpiredCount) == Value(s.db.reasons, Expired)
  {
    hide IsRun, Staffed, Faithful, Counted, Traced, Bounded, Total;
    InvAlways(cfg, width, states, steps, i);
  }

  /** With at most `width` publishers up at once, retention stays within these limits; for one
      publisher they are the configured ones. */
  lemma Retained(cfg: Config, width: nat, states: seq<System>, steps: seq<Step>, i: nat)
    requires ValidConfig(cfg) && IsRun(cfg, width, states, steps) && i < |states|
    ensures |states[i].db.rows| <= MostRows(cfg, width)
    ensures width >= 1 ==> MostRows(cfg, width) <= cfg.maxRecords + width - 1
    ensures Bytes(states[i].db.rows) <= width * cfg.maxBytes
    ensures width == 1 ==> |states[i].db.rows| <= cfg.maxRecords && Bytes(states[i].db.rows) <= cfg.maxBytes
  {
    hide IsRun, Staffed, Faithful, Counted, Traced, Booked, Bytes, PendingBytes;
    InvAlways(cfg, width, states, steps, i);
  }

  /** A retained row has been settled under its own lease fewer than `maxAttempts` times, and that
      is what its attempts column says. */
  lemma AttemptsBounded(cfg: Config, width: nat, states: seq<System>, steps: seq<Step>, i: nat, key: Key)
    requires ValidConfig(cfg) && IsRun(cfg, width, states, steps) && i < |states| && key in states[i].db.rows
    ensures states[i].db.rows[key].attempts < cfg.maxAttempts
    ensures key in states[i].history.settled && states[i].history.settled[key] == states[i].db.rows[key].attempts
  {
    hide IsRun, Staffed, Faithful, Traced, Booked, Bounded;
    InvAlways(cfg, width, states, steps, i);
  }

  /** Every transport call sends the bytes of a row inserted under its key, after a clock reading
      before that row's deadline and expiry. */
  lemma CallsLawful(cfg: Config, width: nat, states: seq<System>, steps: seq<Step>, i: nat, n: nat)
    requires ValidConfig(cfg) && IsRun(cfg, width, states, steps) && i < |states| && n < |states[i].history.calls|
    ensures var call := states[i].history.calls[n];
      exists c :: c in states[i].history.born && c.key == call.key && c.row.body == call.body
        && call.readAt < c.row.deadlineAt && call.readAt < c.row.expiresAt
  {
    hide IsRun, Staffed, Faithful, Counted, Booked, Bounded;
    InvAlways(cfg, width, states, steps, i);
    assert Lawful(states[i].history.born, states[i].history.calls[n]);
  }

  /** No step lowers a retained row's attempts, rewrites its request, or replaces it. */
  lemma RowEvolves(cfg: Config, width: nat, s: System, step: Step, key: Key)
    requires Inv(cfg, width, s) && Enabled(cfg, width, s, step)
    requires key in s.db.rows && key in After(cfg, s, step).db.rows
    ensures var row, row' := s.db.rows[key], After(cfg, s, step).db.rows[key];
      row.attempts <= row'.attempts <= row.attempts + 1 && SameRequest(row, row')
  {
    hide Settle, Admit, Chosen, Drop, Backoff, Staffed, Counted, Traced, Bounded, Booked, Value;
    match step
    case SettleRow(p) =>
      assert Current(s, p);
      SettleRows(cfg, s.db, s.flights[p].key, p, s.flights[p].snap, s.flights[p].readAt, s.flights[p].outcome);
    case _ =>
  }

  // ----- leases -----

  /** While a row stays leased, the end of its lease only moves forward. */
  lemma LeaseMovesForward(cfg: Config, width: nat, s: System, step: Step, key: Key)
    requires Enabled(cfg, width, s, step) && key in s.db.rows && s.db.rows[key].lease.Some?
    requires var rows' := After(cfg, s, step).db.rows; key in rows' && rows'[key].lease.Some?
    ensures s.db.rows[key].lease.value.until <= After(cfg, s, step).db.rows[key].lease.value.until
  {
    hide Settle, Admit, Drop, Backoff;
    match step
    case SettleRow(p) =>
      SettleRows(cfg, s.db, s.flights[p].key, p, s.flights[p].snap, s.flights[p].readAt, s.flights[p].outcome);
    case _ =>
  }

  lemma {:induction false} LeaseLasts(cfg: Config, width: nat, states: seq<System>, steps: seq<Step>, i: nat, j: nat, key: Key)
    requires IsRun(cfg, width, states, steps) && i < j < |states|
    requires steps[i].ClaimRow? && steps[i].key == key
    requires forall m :: i < m <= j ==> key in states[m].db.rows && states[m].db.rows[key].lease.Some?
    ensures key in states[j].db.rows && states[j].db.rows[key].lease.Some?
    ensures steps[i].now + cfg.lease <= states[j].db.rows[key].lease.value.until
    decreases j
  {
    hide Settle, Admit, Drop;
    if j == i + 1 {
      assert Enabled(cfg, width, states[i], steps[i]) && states[j] == After(cfg, states[i], steps[i]);
    } else {
      LeaseLasts(cfg, width, states, steps, i, j - 1, key);
      assert states[j] == After(cfg, states[j - 1], steps[j - 1]);
      LeaseMovesForward(cfg, width, states[j - 1], steps[j - 1], key);
    }
  }

  /** Two claims of a row that stayed leased in between were read at least one lease apart. */
  lemma ClaimsApart(cfg: Config, width: nat, states: seq<System>, steps: seq<Step>, i: nat, j: nat, key: Key)
    requires IsRun(cfg, width, states, steps) && i < j < |steps|
    requires steps[i].ClaimRow? && steps[i].key == key && steps[j].ClaimRow? && steps[j].key == key
    requires forall m :: i < m <= j ==> key in states[m].db.rows && states[m].db.rows[key].lease.Some?
    ensures steps[i].now + cfg.lease <= steps[j].now
  {
    hide Settle, Admit, Drop, After;
    LeaseLasts(cfg, width, states, steps, i, j, key);
    assert Enabled(cfg, width, states[j], steps[j]);
  }

  /** The publisher has a flush in progress whose row it no longer holds. */
  predicate Lost(s: System, o: Owner) {
    o in s.flights && !Owns(s.db, s.flights[o].key, o)
  }

  lemma ReclaimLoses(cfg: Config, width: nat, s: System, o: Owner, step: Step)
    requires Enabled(cfg, width, s, step) && step.ClaimRow? && step.owner != o
    requires o in s.flights && s.flights[o].key == step.key
    ensures Lost(After(cfg, s, step), o)
  {}

  lemma LostStep(cfg: Config, width: nat, s: System, o: Owner, step: Step)
    requires Staffed(width, s) && Enabled(cfg, width, s, step) && Lost(s, o)
    requires step != SettleRow(o) && step != Crash(o)
    ensures Lost(After(cfg, s, step), o) && After(cfg, s, step).flights[o].key == s.flights[o].key
  {
    hide Settle, Admit, Drop, Chosen, Backoff;
    match step
    case SettleRow(p) =>
      SettleRows(cfg, s.db, s.flights[p].key, p, s.flights[p].snap, s.flights[p].readAt, s.flights[p].outcome);
    case _ =>
  }

  /** Once lost, a flush stays lost until it ends, and its settlement changes nothing at all. */
  lemma {:induction false} LostForGood(cfg: Config, width: nat, states: seq<System>, steps: seq<Step>, i: nat, j: nat, o: Owner)
    requires ValidConfig(cfg) && IsRun(cfg, width, states, steps) && i <= j < |states| && Lost(states[i], o)
    requires forall m :: i <= m < j ==> steps[m] != SettleRow(o) && steps[m] != Crash(o)
    ensures Lost(states[j], o)
    ensures j < |steps| && steps[j] == SettleRow(o) ==>
      states[j + 1].db == states[j].db && states[j + 1].history == states[j].history
    decreases j
  {
    hide Enabled, After, Staffed, Booked, Faithful, Counted, Traced, Bounded;
    if i < j {
      LostForGood(cfg, width, states, steps, i, j - 1, o);
      InvAlways(cfg, width, states, steps, j - 1);
      LostStep(cfg, width, states[j - 1], o, steps[j - 1]);
    }
    if j < |steps| && steps[j] == SettleRow(o) {
      LostSettle(cfg, width, states[j], o);
    }
  }

  lemma LostSettle(cfg: Config, width: nat, s: System, o: Owner)
    requires Lost(s, o) && Enabled(cfg, width, s, SettleRow(o))
    ensures After(cfg, s, SettleRow(o)).db == s.db && After(cfg, s, SettleRow(o)).history == s.history
  {
    hide Drop, Backoff;
  }

  // ----- the record limit is reached -----

  ghost predicate Reachable(cfg: Config, width: nat, s: System) {
    exists states, steps :: IsRun(cfg, width, states, steps) && states[|steps|] == s
  }

  lemma ReachableNext(cfg: Config, width: nat, s: System, step: Step)
    requires Reachable(cfg, width, s) && Enabled(cfg, width, s, step)
    ensures Reachable(cfg, width, After(cfg, s, step))
  {
    hide Enabled, After, Initial;
    var states, steps :| IsRun(cfg, width, states, steps) && states[|steps|] == s;
    var states', steps' := states + [After(cfg, s, step)], steps + [step];
    forall i | 0 <= i < |steps'|
      ensures Enabled(cfg, width, states'[i], steps'[i]) && states'[i + 1] == After(cfg, states'[i], steps'[i])
    {
      if i < |steps| {
        assert steps'[i] == steps[i] && states'[i] == states[i] && states'[i + 1] == states[i + 1];
      }
    }
    assert IsRun(cfg, width, states', steps');
  }

  /** n + r rows are in, the enqueues of publishers r..q are past their check, every body has `size`
      characters and keys are told apart by their length. */
  ghost predicate Stage(cfg: Config, width: nat, size: nat, s: System, n: nat, r: nat, q: nat) {
    && Reachable(cfg, width, s)
    && (forall o: Owner :: o in s.live <==> o < width)
    && |s.db.rows| == n + r && (forall k :: k in s.db.rows ==> |k| < n + r && |s.db.rows[k].body| == size)
    && (forall o: Owner :: o in s.pending <==> r <= o < q)
    && (forall o :: o in s.pending ==> |s.pending[o].key| == n + o && |s.pending[o].row.body| == size)
  }

  function Letters(n: nat): (k: string)
    ensures |k| == n
  {
    seq(n, _ => 'k')
  }

  function FreshRow(cfg: Config, now: int, size: nat): (row: Row)
    ensures IsNew(cfg, row, now) && |row.body| == size
  {
    Row("baml", "run", Letters(size), now, now, 0, now, None, None)
  }

  lemma EqualBodies(rows: map<Key, Row>, size: nat)
    requires forall k :: k in rows ==> |rows[k].body| == size
    ensures Bytes(rows) == |rows| * size
  {
    hide Total;
    assert Sizes(rows).Keys == rows.Keys;
    TotalBound(Sizes(rows), size, |rows|);
    TotalFloor(Sizes(rows), size);
  }

  lemma CheckOne(cfg: Config, width: nat, size: nat, s: System, n: nat, q: nat) returns (s': System)
    requires Stage(cfg, width, size, s, n, 0, q) && q < width && n < cfg.maxRecords
    requires cfg.leastBody <= size && (n + 1) * size <= cfg.maxBytes
    ensures Stage(cfg, width, size, s', n, 0, q + 1)
  {
    hide Bytes, IsNew, Reachable;
    var step := CheckEnqueue(q, Letters(n + q), FreshRow(cfg, s.clock, size), s.clock);
    EqualBodies(s.db.rows, size);
    Distribute(n + 1, size);
    assert Admit(cfg, s.db, step.key, step.row.body).Admitted?;
    ReachableNext(cfg, width, s, step);
    s' := After(cfg, s, step);
  }

  lemma InsertOne(cfg: Config, width: nat, size: nat, s: System, n: nat, r: nat, q: nat) returns (s': System)
    requires Stage(cfg, width, size, s, n, r, q) && r < q <= width
    ensures Stage(cfg, width, size, s', n, r + 1, q)
  {
    hide Reachable;
    var c := s.pending[r];
    ReachableNext(cfg, width, s, InsertRow(r));
    s' := After(cfg, s, InsertRow(r));
    OneMore(s.db.rows, c.key, c.row);
  }

  lemma {:induction false} Fill(cfg: Config, width: nat, size: nat, s: System, n: nat) returns (s': System)
    requires Stage(cfg, width, size, s, 0, 0, 0) && 0 < width && n <= cfg.maxRecords
    requires cfg.leastBody <= size && n * size <= cfg.maxBytes
    ensures Stage(cfg, width, size, s', n, 0, 0)
    decreases n
  {
    hide Stage;
    if n == 0 {
      s' := s;
    } else {
      MulMonotone(n - 1, n, size);
      s' := Fill(cfg, width, size, s, n - 1);
      s' := CheckOne(cfg, width, size, s', n - 1, 0);
      s' := InsertOne(cfg, width, size, s', n - 1, 0, 1);
      NextRound(cfg, width, size, s', n);
    }
  }

  lemma NextRound(cfg: Config, width: nat, size: nat, s: System, n: nat)
    requires n >= 1 && Stage(cfg, width, size, s, n - 1, 1, 1)
    ensures Stage(cfg, width, size, s, n, 0, 0)
  {
    hide Reachable;
  }

  lemma {:induction false} CheckAll(cfg: Config, width: nat, size: nat, s: System, n: nat, q: nat) returns (s': System)
    requires Stage(cfg, width, size, s, n, 0, 0) && q <= width && n < cfg.maxRecords
    requires cfg.leastBody <= size && (n + 1) * size <= cfg.maxBytes
    ensures Stage(cfg, width, size, s', n, 0, q)
    decreases q
  {
    hide Stage;
    if q == 0 {
      s' := s;
    } else {
      s' := CheckAll(cfg, width, size, s, n, q - 1);
      s' := CheckOne(cfg, width, size, s', n, q - 1);
    }
  }

  lemma {:induction false} InsertAll(cfg: Config, width: nat, size: nat, s: System, n: nat, r: nat) returns (s': System)
    requires Stage(cfg, width, size, s, n, 0, width) && r <= width
    ensures Stage(cfg, width, size, s', n, r, width)
    decreases r
  {
    hide Stage;
    if r == 0 {
      s' := s;
    } else {
      s' := InsertAll(cfg, width, size, s, n, r - 1);
      s' := InsertOne(cfg, width, size, s', n, r - 1, width);
    }
  }

  lemma {:induction false} JoinAll(cfg: Config, width: nat, n: nat) returns (s: System)
    requires n <= width
    ensures Reachable(cfg, width, s) && s.db.rows == map[] && s.pending == map[]
    ensures (forall o: Owner :: o in s.live <==> o < n) && |s.live| == n && (forall o: Owner :: o in s.spent <==> o < n)
    decreases n
  {
    hide Reachable;
    if n == 0 {
      s := System(Db(map[], map[], map[]), 0, {}, {}, map[], map[], History(0, {}, [], map[], {}));
      EmptyRun(cfg, width, s);
    } else {
      var t := JoinAll(cfg, width, n - 1);
      ReachableNext(cfg, width, t, Join(n - 1));
      s := After(cfg, t, Join(n - 1));
    }
  }

  lemma EmptyRun(cfg: Config, width: nat, s: System)
    requires Initial(s)
    ensures Reachable(cfg, width, s)
  {
    assert IsRun(cfg, width, [s], []);
  }

  /** Everyone checks while one place is left, then everyone inserts. */
  lemma Overfill(cfg: Config, width: nat, size: nat, n: nat) returns (s: System)
    requires width >= 1 && n < cfg.maxRecords && cfg.leastBody <= size && (n + 1) * size <= cfg.maxBytes
    ensures Reachable(cfg, width, s) && |s.db.rows| == n + width && Bytes(s.db.rows) == (n + width) * size
  {
    hide Stage;
    s := JoinAll(cfg, width, width);
    StageStart(cfg, width, size, s);
    MulMonotone(n, n + 1, size);
    s := Fill(cfg, width, size, s, n);
    s := CheckAll(cfg, width, size, s, n, width);
    s := InsertAll(cfg, width, size, s, n, width);
    StageEnd(cfg, width, size, s, n);
  }

  lemma StageStart(cfg: Config, width: nat, size: nat, s: System)
    requires Reachable(cfg, width, s) && s.db.rows == map[] && s.pending == map[]
    requires forall o: Owner :: o in s.live <==> o < width
    ensures Stage(cfg, width, size, s, 0, 0, 0)
  {
    hide Reachable;
  }

  lemma StageEnd(cfg: Config, width: nat, size: nat, s: System, n: nat)
    requires Stage(cfg, width, size, s, n, width, width)
    ensures Reachable(cfg, width, s) && |s.db.rows| == n + width && Bytes(s.db.rows) == (n + width) * size
  {
    hide Reachable, Bytes;
    EqualBodies(s.db.rows, size);
  }

  /** For every configuration and every number of publishers, the bound on rows is reached. */
  lemma RecordBoundReached(cfg: Config, width: nat)
    requires ValidConfig(cfg)
    ensures exists s :: Reachable(cfg, width, s) && |s.db.rows| == MostRows(cfg, width)
  {
    hide Reachable, Bytes;
    if width >= 1 && Places(cfg) >= 1 {
      FloorDivides(Places(cfg), cfg.leastBody, cfg.maxBytes);
      var s := Overfill(cfg, width, cfg.leastBody, Places(cfg) - 1);
    } else {
      var s := JoinAll(cfg, width, 0);
    }
  }

  /** And so is the bound on bytes, when any body fits at all: everyone checks a body of the whole
      budget on an empty outbox. */
  lemma ByteBoundReached(cfg: Config, width: nat)
    requires ValidConfig(cfg) && cfg.leastBody <= cfg.maxBytes
    ensures exists s :: Reachable(cfg, width, s) && Bytes(s.db.rows) == width * cfg.maxBytes
  {
    hide Reachable;
    if width >= 1 {
      var s := Overfill(cfg, width, cfg.maxBytes, 0);
    } else {
      var s := JoinAll(cfg, width, 0);
      EqualBodies(s.db.rows, 0);
    }
  }

  lemma ReachableRetained(cfg: Config, width: nat, s: System)
    requires ValidConfig(cfg) && Reachable(cfg, width, s)
    ensures |s.db.rows| <= MostRows(cfg, width) && Bytes(s.db.rows) <= width * cfg.maxBytes
  {
    hide Enabled, After, Initial, Bytes, MostRows;
    var states, steps :| IsRun(cfg, width, states, steps) && states[|steps|] == s;
    Retained(cfg, width, states, steps, |steps|);
  }

  /** The configured record limit holds in every run exactly when the places and the publishers beyond
      the first do not exceed it; where `maxRecords` short bodies fit the byte budget, exactly for a
      single publisher. */
  lemma RecordLimitKeptIff(cfg: Config, width: nat)
    requires ValidConfig(cfg) && width >= 1
    ensures (forall s :: Reachable(cfg, width, s) ==> |s.db.rows| <= cfg.maxRecords) <==> MostRows(cfg, width) <= cfg.maxRecords
    ensures cfg.maxRecords * cfg.leastBody <= cfg.maxBytes ==> (MostRows(cfg, width) <= cfg.maxRecords <==> width == 1)
  {
    hide Reachable;
    RecordBoundReached(cfg, width);
    forall s | Reachable(cfg, width, s) ensures |s.db.rows| <= MostRows(cfg, width) {
      ReachableRetained(cfg, width, s);
    }
    FloorDivides(cfg.maxRecords, cfg.leastBody, cfg.maxBytes);
  }

  /** The configured byte limit holds in every run exactly for a single publisher, unless no body fits. */
  lemma ByteLimitKeptIff(cfg: Config, width: nat)
    requires ValidConfig(cfg) && width >= 1
    ensures (forall s :: Reachable(cfg, width, s) ==> Bytes(s.db.rows) <= cfg.maxBytes)
       <==> width == 1 || cfg.maxBytes < cfg.leastBody
  {
    hide Reachable, Bytes;
    forall s | Reachable(cfg, width, s)
      ensures Bytes(s.db.rows) <= width * cfg.maxBytes && |s.db.rows| <= MostRows(cfg, width)
    {
      ReachableRetained(cfg, width, s);
    }
    if cfg.maxBytes < cfg.leastBody {
      FloorDivides(1, cfg.leastBody, cfg.maxBytes);
      forall s | Reachable(cfg, width, s) ensures Bytes(s.db.rows) <= cfg.maxBytes {
        EqualBodies(s.db.rows, 0);
      }
    } else {
      ByteBoundReached(cfg, width);
      if width >= 2 {
        MulMonotone(2, width, cfg.maxBytes);
      }
    }
  }
}
