/** What the counters of a run say about the transport's answers, and that the publisher's methods
    are such runs. */
module OutboxAnswers {
  import opened Wrappers
  import opened Outbox
  import opened OutboxRuns
  import opened OutboxPublisher

  /** The settled calls that were answered with a status from `low` to `high`. */
  ghost function Answers(s: System, low: int, high: int): set<nat> {
    set n | n in s.history.done && n < |s.history.calls| && low <= s.history.calls[n].status <= high
  }

  /** The call a flush is about to settle is the one it made, and nobody else settles it. */
  ghost predicate OwnCall(s: System, o: Owner)
    requires o in s.flights
  {
    var f := s.flights[o];
    f.Deciding? ==>
      && (f.outcome.PastExpiry? ==> f.snap.expiresAt <= f.readAt)
      && (f.outcome.PastDeadline? ==> f.snap.deadlineAt <= f.readAt < f.snap.expiresAt)
      && (f.call.Some? <==> f.outcome.Answered?)
      && (f.outcome.Answered? ==>
            && f.call.value < |s.history.calls| && f.call.value !in s.history.done
            && s.history.calls[f.call.value] == Call(f.key, f.snap.body, f.readAt, f.outcome.status))
  }

  ghost predicate CallsOwned(s: System) {
    && (forall n :: n in s.history.done ==> n < |s.history.calls|)
    && (forall o :: o in s.flights ==> OwnCall(s, o))
    && (forall o, p :: o in s.flights && p in s.flights && o != p ==>
          s.flights[o].Deciding? && s.flights[p].Deciding? && s.flights[o].call.Some? ==> s.flights[o].call != s.flights[p].call)
  }

  /** The counters are exactly what the settled answers call for. */
  ghost predicate Told(s: System) {
    && Value(s.db.counters, Published) == |Answers(s, 200, 201)|
    && Value(s.db.counters, Retried) == |Answers(s, 0, 0)| + |Answers(s, 408, 408)| + |Answers(s, 429, 429)| + |Answers(s, 500, 599)|
    && Value(s.db.reasons, SinkUnavailable) == 0
    && (forall c :: Value(s.db.reasons, HttpStatus(c)) == DropsBy(s, c))
  }

  /** Drops under a status: none for a delivery, a missing answer or an answer that is tried again. */
  ghost function DropsBy(s: System, c: int): nat {
    if c in {0, 200, 201, 408, 429} || 500 <= c <= 599 then 0 else |Answers(s, c, c)|
  }

  lemma CallsOwnedSettle(cfg: Config, s: System, o: Owner)
    requires CallsOwned(s) && o in s.flights && s.flights[o].Deciding?
    ensures CallsOwned(AfterSettle(cfg, s, o))
  {
    hide Settle;
    var s' := AfterSettle(cfg, s, o);
    forall p | p in s'.flights ensures OwnCall(s', p) {
      assert OwnCall(s, p) && OwnCall(s, o);
    }
  }

  lemma CallsOwnedSend(s: System, o: Owner, status: int)
    requires CallsOwned(s) && o in s.flights && s.flights[o].Sending?
    ensures CallsOwned(AfterSend(s, o, status))
  {
    var s' := AfterSend(s, o, status);
    forall p | p in s'.flights ensures OwnCall(s', p) {
      assert p in s.flights && OwnCall(s, p);
    }
    forall p | p in s.flights && s.flights[p].Deciding? && s.flights[p].call.Some? ensures s.flights[p].call.value < |s.history.calls| {
      assert OwnCall(s, p);
    }
  }

  /** A flight that starts, or reads the clock, has made no call. */
  lemma CallsOwnedFlight(s: System, s': System, o: Owner, f: Flight)
    requires CallsOwned(s) && s'.history == s.history && s'.flights == s.flights[o := f]
    requires f.Taken? || exists g: Flight, clock :: f == AfterRead(g, clock)
    ensures CallsOwned(s')
  {
    forall p | p in s'.flights ensures OwnCall(s', p) {
      assert p != o ==> OwnCall(s, p);
    }
  }

  lemma CallsOwnedKept(s: System, s': System)
    requires CallsOwned(s) && s'.flights.Keys <= s.flights.Keys && forall o :: o in s'.flights ==> s'.flights[o] == s.flights[o]
    requires s'.history.calls == s.history.calls && s'.history.done == s.history.done
    ensures CallsOwned(s')
  {
    forall p | p in s'.flights ensures OwnCall(s', p) {
      assert OwnCall(s, p);
    }
  }

  lemma CallsOwnedStep(cfg: Config, width: nat, s: System, step: Step)
    requires CallsOwned(s) && Enabled(cfg, width, s, step)
    ensures CallsOwned(After(cfg, s, step))
  {
    hide CallsOwned, Admit, Drop, Chosen, IsNew, Claim, Release, Insert, AfterSettle, AfterSend, AfterRead, Free;
    match step
    case SettleRow(o) => CallsOwnedSettle(cfg, s, o);
    case Send(o, status) => CallsOwnedSend(s, o, status);
    case ReadClock(o) => CallsOwnedFlight(s, After(cfg, s, step), o, AfterRead(s.flights[o], s.clock));
    case ClaimRow(o, _, _, _, key) =>
      if key in s.db.rows { CallsOwnedFlight(s, After(cfg, s, step), o, Taken(key, s.db.rows[key])); }
    case _ => CallsOwnedKept(s, After(cfg, s, step));
  }

  lemma OneMoreAnswer(s: System, s': System, n: nat, low: int, high: int)
    requires n < |s.history.calls| && n !in s.history.done
    requires s'.history.calls == s.history.calls && s'.history.done == s.history.done + {n}
    ensures |Answers(s', low, high)| == |Answers(s, low, high)| + if low <= s.history.calls[n].status <= high then 1 else 0
  {
    assert Answers(s', low, high) ==
      Answers(s, low, high) + if low <= s.history.calls[n].status <= high then {n} else {};
  }

  /** Calls only get added, so what was settled stays answered as it was. */
  lemma SameAnswers(s: System, s': System, low: int, high: int)
    requires s'.history.done == s.history.done && s.history.calls <= s'.history.calls
    requires forall n :: n in s.history.done ==> n < |s.history.calls|
    ensures Answers(s', low, high) == Answers(s, low, high)
  {}

  lemma ToldKept(s: System, s': System)
    requires Told(s) && CallsOwned(s)
    requires s'.history.done == s.history.done && s.history.calls <= s'.history.calls
    requires Value(s'.db.counters, Published) == Value(s.db.counters, Published)
    requires Value(s'.db.counters, Retried) == Value(s.db.counters, Retried)
    requires forall r :: !RefusedAtEnqueue(r) && !r.Expired? && !r.DeadlineExceeded? ==>
      Value(s'.db.reasons, r) == Value(s.db.reasons, r)
    ensures Told(s')
  {
    hide OwnCall, Answers, Value;
    SameAnswers(s, s', 200, 201);
    SameAnswers(s, s', 0, 0);
    SameAnswers(s, s', 408, 408);
    SameAnswers(s, s', 429, 429);
    SameAnswers(s, s', 500, 599);
    forall c ensures Value(s'.db.reasons, HttpStatus(c)) == DropsBy(s', c) {
      SameAnswers(s, s', c, c);
    }
  }

  /** What the settlement of an owned row adds to the counters, by the answer. */
  lemma SettleCounts(cfg: Config, db: Db, key: Key, o: Owner, snap: Row, now: int, status: int)
    requires Owns(db, key, o)
    ensures var db' := Settle(cfg, db, key, o, snap, now, Answered(status));
      && Value(db'.counters, Published) == Value(db.counters, Published) + (if status == 200 || status == 201 then 1 else 0)
      && Value(db'.counters, Retried) ==
           Value(db.counters, Retried) + (if status in {0, 408, 429} || 500 <= status <= 599 then 1 else 0)
      && Value(db'.reasons, SinkUnavailable) == Value(db.reasons, SinkUnavailable)
      && forall c :: Value(db'.reasons, HttpStatus(c)) ==
           Value(db.reasons, HttpStatus(c)) + (if c == status && !(c in {0, 200, 201, 408, 429} || 500 <= c <= 599) then 1 else 0)
  {
    hide Backoff, Retry;
  }

  lemma ToldSettle(cfg: Config, s: System, o: Owner)
    requires Told(s) && CallsOwned(s) && o in s.flights && s.flights[o].Deciding?
    ensures Told(AfterSettle(cfg, s, o))
  {
    hide Answers, Settle, Value;
    var s', f := AfterSettle(cfg, s, o), s.flights[o];
    assert OwnCall(s, o);
    if Owns(s.db, f.key, o) && f.outcome.Answered? {
      var n := f.call.value;
      SettleCounts(cfg, s.db, f.key, o, f.snap, f.readAt, f.outcome.status);
      OneMoreAnswer(s, s', n, 200, 201);
      OneMoreAnswer(s, s', n, 0, 0);
      OneMoreAnswer(s, s', n, 408, 408);
      OneMoreAnswer(s, s', n, 429, 429);
      OneMoreAnswer(s, s', n, 500, 599);
      forall c ensures Value(s'.db.reasons, HttpStatus(c)) == DropsBy(s', c) {
        OneMoreAnswer(s, s', n, c, c);
      }
    } else {
      UncountedSettle(cfg, s.db, f.key, o, f.snap, f.readAt, f.outcome);
      ToldKept(s, s');
    }
  }

  /** A lost row, or one past its end, moves none of these. */
  lemma UncountedSettle(cfg: Config, db: Db, key: Key, o: Owner, snap: Row, now: int, outcome: Outcome)
    requires !Owns(db, key, o) || !outcome.Answered?
    ensures var db' := Settle(cfg, db, key, o, snap, now, outcome);
      && Value(db'.counters, Published) == Value(db.counters, Published) && Value(db'.counters, Retried) == Value(db.counters, Retried)
      && forall r :: !RefusedAtEnqueue(r) && !r.Expired? && !r.DeadlineExceeded? ==> Value(db'.reasons, r) == Value(db.reasons, r)
  {}

  lemma ToldStep(cfg: Config, width: nat, s: System, step: Step)
    requires Told(s) && CallsOwned(s) && Enabled(cfg, width, s, step)
    ensures Told(After(cfg, s, step))
  {
    hide AfterSettle, Told, CallsOwned, Answers, Chosen, IsNew;
    match step
    case SettleRow(o) => ToldSettle(cfg, s, o);
    case _ => ToldKept(s, After(cfg, s, step));
  }

  lemma {:induction false} ToldAlways(cfg: Config, width: nat, states: seq<System>, steps: seq<Step>, i: nat)
    requires IsRun(cfg, width, states, steps) && i < |states|
    ensures CallsOwned(states[i]) && Told(states[i])
    decreases i
  {
    hide Told, CallsOwned, Enabled, After, Initial;
    if i == 0 {
      ToldInitial(states[0]);
    } else {
      ToldAlways(cfg, width, states, steps, i - 1);
      CallsOwnedStep(cfg, width, states[i - 1], steps[i - 1]);
      ToldStep(cfg, width, states[i - 1], steps[i - 1]);
    }
  }

  lemma ToldInitial(s: System)
    requires Initial(s)
    ensures CallsOwned(s) && Told(s)
  {
    forall low, high ensures Answers(s, low, high) == {} {}
  }

  /** In every run `published` counts exactly the calls that were answered 200 or 201 and settled under the
      row's own lease, `retried` those without an answer or answered 408, 429 or 500 to 599, and the drops
      under any other status those it answered. */
  lemma CountersTellAnswers(cfg: Config, width: nat, states: seq<System>, steps: seq<Step>, i: nat)
    requires IsRun(cfg, width, states, steps) && i < |states|
    ensures var s, calls := states[i], states[i].history.calls;
      && (forall n :: n in s.history.done ==> n < |calls|)
      && Value(s.db.counters, Published) == |set n | n in s.history.done && (calls[n].status == 200 || calls[n].status == 201)|
      && Value(s.db.counters, Retried) ==
           |set n | n in s.history.done && (calls[n].status in {0, 408, 429} || 500 <= calls[n].status <= 599)|
      && Value(s.db.reasons, SinkUnavailable) == 0
      && (forall c :: c in {0, 200, 201, 408, 429} || 500 <= c <= 599 ==> Value(s.db.reasons, HttpStatus(c)) == 0)
      && (forall c :: !(c in {0, 200, 201, 408, 429} || 500 <= c <= 599) ==>
            Value(s.db.reasons, HttpStatus(c)) == |set n | n in s.history.done && calls[n].status == c|)
  {
    hide IsRun, OwnCall, Value;
    ToldAlways(cfg, width, states, steps, i);
    AnswersSpelledOut(states[i]);
  }

  lemma AnswersSpelledOut(s: System)
    requires forall n :: n in s.history.done ==> n < |s.history.calls|
    ensures var done, calls := s.history.done, s.history.calls;
      && Answers(s, 200, 201) == (set n | n in done && (calls[n].status == 200 || calls[n].status == 201))
      && |Answers(s, 0, 0)| + |Answers(s, 408, 408)| + |Answers(s, 429, 429)| + |Answers(s, 500, 599)| ==
           |set n | n in done && (calls[n].status in {0, 408, 429} || 500 <= calls[n].status <= 599)|
      && forall c :: Answers(s, c, c) == set n | n in done && calls[n].status == c
  {
    var done, calls := s.history.done, s.history.calls;
    var none, late, busy, broken := Answers(s, 0, 0), Answers(s, 408, 408), Answers(s, 429, 429), Answers(s, 500, 599);
    FourApart(none, late, busy, broken, set n | n in done && (calls[n].status in {0, 408, 429} || 500 <= calls[n].status <= 599));
    forall c ensures Answers(s, c, c) == set n | n in done && calls[n].status == c {}
  }

  lemma FourApart(p: set<nat>, q: set<nat>, r: set<nat>, t: set<nat>, all: set<nat>)
    requires forall n :: n in all <==> n in p || n in q || n in r || n in t
    requires p !! q && p !! r && p !! t && q !! r && q !! t && r !! t
    ensures |p| + |q| + |r| + |t| == |all|
  {
    assert all == p + q + r + t;
    assert |p + q| == |p| + |q| && |p + q + r| == |p + q| + |r|;
  }

  // ----- waiting between attempts -----

  /** The wait starts at the initial backoff, doubles with every attempt and stops at the maximum. */
  lemma BackoffDoubles(cfg: Config, attempts: nat)
    requires ValidConfig(cfg) && attempts >= 1
    ensures Backoff(cfg, 1) == cfg.initialBackoff
    ensures Backoff(cfg, attempts + 1) ==
      if 2 * Backoff(cfg, attempts) <= cfg.maxBackoff then 2 * Backoff(cfg, attempts) else cfg.maxBackoff
  {
    assert Doubled(cfg.initialBackoff, attempts) == 2 * Doubled(cfg.initialBackoff, attempts - 1);
  }

  /** A retried row is free and waits. */
  ghost predicate Waiting(s: System, key: Key, until: int) {
    key in s.db.rows && s.db.rows[key].lease.None? && s.db.rows[key].nextAttemptAt == until
  }

  lemma WaitingStep(cfg: Config, width: nat, s: System, step: Step, key: Key, until: int)
    requires Waiting(s, key, until) && Enabled(cfg, width, s, step)
    requires !(step.ClaimRow? && step.key == key)
    ensures Waiting(After(cfg, s, step), key, until)
  {
    hide Settle, Admit, Drop, Backoff, Chosen, IsNew;
    match step
    case SettleRow(p) =>
      SettleRows(cfg, s.db, s.flights[p].key, p, s.flights[p].snap, s.flights[p].readAt, s.flights[p].outcome);
    case _ =>
  }

  /** The settlement at step i kept its row for another attempt. */
  ghost predicate Retries(cfg: Config, s: System, step: Step) {
    && step.SettleRow? && step.owner in s.flights && s.flights[step.owner].Deciding?
    && var f := s.flights[step.owner];
    && Owns(s.db, f.key, step.owner) && f.key in After(cfg, s, step).db.rows
  }

  /** After a failed attempt the next claim of the row that is not forced comes no earlier than the backoff
      for the attempts made so far, counted from the clock reading of the failed attempt. */
  lemma {:induction false} RetryWaits(cfg: Config, width: nat, states: seq<System>, steps: seq<Step>, i: nat, j: nat)
    requires IsRun(cfg, width, states, steps) && i < j < |steps| && Retries(cfg, states[i], steps[i])
    requires var key := states[i].flights[steps[i].owner].key;
      && (forall m :: i < m < j ==> !(steps[m].ClaimRow? && steps[m].key == key))
      && steps[j].ClaimRow? && steps[j].key == key && !steps[j].force
    ensures var f := states[i].flights[steps[i].owner];
      f.readAt + Backoff(cfg, f.snap.attempts + 1) <= steps[j].now
  {
    hide Settle, Admit, Drop, Backoff, After;
    var f := states[i].flights[steps[i].owner];
    RetryStarts(cfg, states[i], steps[i]);
    var until := f.readAt + Backoff(cfg, f.snap.attempts + 1);
    assert states[i + 1] == After(cfg, states[i], steps[i]);
    for m := i + 1 to j
      invariant Waiting(states[m], f.key, until)
    {
      WaitingStep(cfg, width, states[m], steps[m], f.key, until);
    }
    assert Enabled(cfg, width, states[j], steps[j]);
  }

  lemma RetryStarts(cfg: Config, s: System, step: Step)
    requires Retries(cfg, s, step)
    ensures var f := s.flights[step.owner];
      Waiting(After(cfg, s, step), f.key, f.readAt + Backoff(cfg, f.snap.attempts + 1))
  {
    hide Backoff, Doubled, Drop, Increment;
    var f := s.flights[step.owner];
    SettleRows(cfg, s.db, f.key, step.owner, f.snap, f.readAt, f.outcome);
  }

  // ----- the publisher's methods are runs -----

  /** What FlushOnce makes of a claim, a clock reading and an answer is what some run makes of them. */
  lemma FlushIsARun(cfg: Config, width: nat, s: System, o: Owner, sources: set<string>, force: bool, claimAt: int, readAt: int, status: int, key: Key)
    returns (s': System)
    requires Reachable(cfg, width, s) && Free(s, o) && o !in s.flights && claimAt <= s.clock <= readAt
    requires Chosen(s.db, sources, force, claimAt, key)
    ensures Reachable(cfg, width, s') && Free(s', o) && o !in s'.flights && s'.clock == readAt
    ensures var row := s.db.rows[key];
      s'.db == Settle(cfg, Claim(cfg, s.db, key, o, claimAt), key, o, row, readAt, OutcomeAt(row, readAt, status))
  {
    assert key in s.db.rows;
    hide Reachable, Settle, Chosen;
    s' := Next(cfg, width, s, ClaimRow(o, sources, force, claimAt, key));
    s' := FlushReads(cfg, width, s', o, readAt, status);
    s' := Next(cfg, width, s', SettleRow(o));
  }

  /** The middle of a flush: the second clock reading and the call. */
  lemma FlushReads(cfg: Config, width: nat, s: System, o: Owner, readAt: int, status: int) returns (s': System)
    requires Reachable(cfg, width, s) && Free(s, o) && o in s.flights && s.flights[o].Taken? && s.clock <= readAt
    ensures Reachable(cfg, width, s') && s'.live == s.live && s'.pending == s.pending && s'.clock == readAt && s'.db == s.db
    ensures o in s'.flights && s'.flights[o].Deciding?
    ensures var f, f' := s.flights[o], s'.flights[o];
      f'.key == f.key && f'.snap == f.snap && f'.readAt == readAt && f'.outcome == OutcomeAt(f.snap, readAt, status)
  {
    hide Reachable, Settle, Chosen, Admit;
    s' := Next(cfg, width, s, Tick(readAt));
    s' := Next(cfg, width, s', ReadClock(o));
    if s'.flights[o].Sending? {
      s' := Next(cfg, width, s', Send(o, status));
    }
  }

  lemma Next(cfg: Config, width: nat, s: System, step: Step) returns (s': System)
    requires Reachable(cfg, width, s) && Enabled(cfg, width, s, step)
    ensures Reachable(cfg, width, s') && s' == After(cfg, s, step)
  {
    ReachableNext(cfg, width, s, step);
    s' := After(cfg, s, step);
  }

  /** The same for EnqueueRecord: its check and its insert, and a missing credential. */
  lemma EnqueueIsARun(cfg: Config, width: nat, s: System, o: Owner, key: Key, row: Row) returns (s': System)
    requires Reachable(cfg, width, s) && Free(s, o) && IsNew(cfg, row, s.clock) && cfg.leastBody <= |row.body|
    ensures Reachable(cfg, width, s') && Free(s', o)
    ensures s'.db ==
      match Admit(cfg, s.db, key, row.body)
      case Duplicate(_) => s.db
      case Refused(r) => Drop(s.db, r)
      case Admitted => Insert(s.db, key, row)
  {
    hide Reachable, Drop, IsNew, Bytes;
    s' := Next(cfg, width, s, CheckEnqueue(o, key, row, s.clock));
    if o in s'.pending {
      s' := Next(cfg, width, s', InsertRow(o));
    }
  }
}
