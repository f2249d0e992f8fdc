/** One publisher working on the shared outbox: the methods that run its transactions in place. */
module OutboxPublisher {
  import opened Wrappers
  import opened Text
  import opened Totals
  import opened Outbox

  /** The SQLite file every publisher opens. */
  class Database {
    var rows: map<Key, Row>
    var counters: map<Counter, nat>
    var reasons: map<Reason, nat>

    constructor ()
      ensures State() == Db(map[], map[], map[])
    {
      rows, counters, reasons := map[], map[], map[];
    }

    ghost function State(): Db
      reads this
    {
      Db(rows, counters, reasons)
    }

    method Increment(c: Counter)
      modifies this
      ensures State() == Outbox.Increment(old(State()), c)
    {
      counters := counters[c := (if c in counters then counters[c] else 0) + 1];
    }

    method Drop(r: Reason)
      modifies this
      ensures State() == Outbox.Drop(old(State()), r)
      ensures rows == old(rows) && reasons == Bump(old(reasons), r)
      ensures counters == if r == Expired then Bump(Bump(old(counters), Dropped), ExpiredCount) else Bump(old(counters), Dropped)
    {
      Increment(Dropped);
      if r.Expired? {
        Increment(ExpiredCount);
      }
      reasons := reasons[r := (if r in reasons then reasons[r] else 0) + 1];
    }

    /** SELECT COALESCE(SUM(body_bytes), 0). */
    method StoredBytes() returns (n: nat)
      ensures n == Bytes(rows)
    {
      hide Total;
      n := 0;
      var left := rows;
      while left.Keys != {}
        invariant left.Keys <= rows.Keys && forall k :: k in left ==> left[k] == rows[k]
        invariant n + Bytes(left) == Bytes(rows)
        decreases left.Keys
      {
        var k :| k in left.Keys;
        TotalRemove(Sizes(left), k);
        assert Sizes(left - {k}) == Sizes(left) - {k};
        n := n + |left[k].body|;
        left := left - {k};
      }
      TotalEmpty(Sizes(left));
    }
  }

  function OutcomeAt(row: Row, now: int, status: int): Outcome {
    if now >= row.expiresAt then PastExpiry
    else if now >= row.deadlineAt then PastDeadline
    else Answered(status)
  }

  class ActivityPublisher {
    const cfg: Config
    const owner: Owner
    const tokens: set<string>  // the sources this publisher holds a credential for
    const db: Database

    constructor (cfg: Config, owner: Owner, tokens: set<string>, db: Database)
      ensures this.cfg == cfg && this.owner == owner && this.tokens == tokens && this.db == db
    {
      this.cfg, this.owner, this.tokens, this.db := cfg, owner, tokens, db;
    }

    /** Persist one request; false for a visible drop or for a key that holds another body. */
    method EnqueueRecord(key: Key, source: string, runId: string, body: string, expiresAt: int, now: int) returns (accepted: bool)
      modifies db
      ensures accepted ==> db.counters == old(db.counters) && db.reasons == old(db.reasons)
      ensures source !in tokens ==> !accepted && db.State() == Outbox.Drop(old(db.State()), CredentialUnavailable)
      ensures source in tokens && key in old(db.rows) ==>
        db.State() == old(db.State()) && accepted == (old(db.rows)[key].body == body)
      ensures source in tokens && key !in old(db.rows) && |old(db.rows)| >= cfg.maxRecords ==>
        !accepted && db.State() == Outbox.Drop(old(db.State()), QueueRecordsExceeded)
      ensures source in tokens && key !in old(db.rows) && |old(db.rows)| < cfg.maxRecords && Bytes(old(db.rows)) + |body| > cfg.maxBytes ==>
        !accepted && db.State() == Outbox.Drop(old(db.State()), QueueBytesExceeded)
      ensures source in tokens && key !in old(db.rows) && |old(db.rows)| < cfg.maxRecords && Bytes(old(db.rows)) + |body| <= cfg.maxBytes ==>
        && accepted
        && (expiresAt <= now + cfg.deadline ==>
              db.rows == old(db.rows)[key := Row(source, runId, body, expiresAt, expiresAt, 0, now, None, None)])
        && (now + cfg.deadline <= expiresAt ==>
              db.rows == old(db.rows)[key := Row(source, runId, body, expiresAt, now + cfg.deadline, 0, now, None, None)])
    {
      if source !in tokens {
        db.Drop(CredentialUnavailable);
        return false;
      }
      var deadline := if expiresAt <= now + cfg.deadline then expiresAt else now + cfg.deadline;
      var admission := CheckEnqueue(key, body);
      if admission.Admitted? {
        accepted := InsertChecked(key, Row(source, runId, body, expiresAt, deadline, 0, now, None, None));
      } else {
        accepted := admission.Duplicate? && admission.same;
      }
    }

    /** What an enqueue reads and refuses before its insert; other processes may act in between. */
    method CheckEnqueue(key: Key, body: string) returns (a: Admission)
      modifies db
      ensures a == Admit(cfg, old(db.State()), key, body)
      ensures db.State() == if a.Refused? then Outbox.Drop(old(db.State()), a.reason) else old(db.State())
    {
      if key in db.rows {
        return Duplicate(db.rows[key].body == body);
      }
      if |db.rows| >= cfg.maxRecords {
        db.Drop(QueueRecordsExceeded);
        return Refused(QueueRecordsExceeded);
      }
      var bytes := db.StoredBytes();
      if bytes + |body| > cfg.maxBytes {
        db.Drop(QueueBytesExceeded);
        return Refused(QueueBytesExceeded);
      }
      return Admitted;
    }

    /** The insert; false where another process inserted the key meanwhile and the statement raises. */
    method InsertChecked(key: Key, row: Row) returns (inserted: bool)
      modifies db
      ensures inserted <==> key !in old(db.rows)
      ensures db.State() == Insert(old(db.State()), key, row)
      ensures inserted ==> db.rows == old(db.rows)[key := row]
      ensures !inserted ==> db.rows == old(db.rows)
      ensures db.counters == old(db.counters) && db.reasons == old(db.reasons)
    {
      inserted := key !in db.rows;
      if inserted {
        db.rows := db.rows[key := row];
      }
    }

    /** Lease the first eligible row, by next attempt and then key; None if there is none. */
    method ClaimNext(force: bool, now: int) returns (key: Option<Key>)
      modifies db
      ensures key.None? ==> db.State() == old(db.State()) && forall k :: k in db.rows ==> !Eligible(db.rows[k], tokens, force, now)
      ensures key.Some? ==>
        && Chosen(old(db.State()), tokens, force, now, key.value)
        && db.State() == Claim(cfg, old(db.State()), key.value, owner, now)
        && db.rows == old(db.rows)[key.value := old(db.rows)[key.value].(lease := Some(Lease(owner, now + cfg.lease)))]
        && db.counters == old(db.counters) && db.reasons == old(db.reasons)
      // A row is due when its source has a credential, its next attempt has come or is forced, and no lease runs.
      ensures key.Some? ==> var row := old(db.rows)[key.value];
        && row.source in tokens && (row.nextAttemptAt <= now || force) && (row.lease.Some? ==> row.lease.value.until <= now)
      ensures forall k :: k in old(db.rows) ==>
        var rival := old(db.rows)[k];
        rival.source in tokens && (force || rival.nextAttemptAt <= now) && (rival.lease.Some? ==> rival.lease.value.until <= now) ==>
          && key.Some? && old(db.rows)[key.value].nextAttemptAt <= rival.nextAttemptAt
          && (old(db.rows)[key.value].nextAttemptAt == rival.nextAttemptAt ==> AtMost(key.value, k))
    {
      key := None;
      var left := db.rows.Keys;
      while left != {}
        invariant left <= db.rows.Keys && db.State() == old(db.State())
        invariant key.None? ==> forall k :: k in db.rows && k !in left ==> !Eligible(db.rows[k], tokens, force, now)
        invariant key.Some? ==>
          && key.value in db.rows && Eligible(db.rows[key.value], tokens, force, now)
          && forall k :: k in db.rows && k !in left && Eligible(db.rows[k], tokens, force, now) ==> Before(db.State(), key.value, k)
        decreases left
      {
        var k :| k in left;
        left := left - {k};
        if Eligible(db.rows[k], tokens, force, now) {
          BeforeRefl(db.State(), k);
          if key.None? {
            key := Some(k);
          } else if Earlier(k, key.value) {
            forall l | l in db.rows && Before(db.State(), key.value, l) ensures Before(db.State(), k, l) {
              BeforeTrans(db.State(), k, key.value, l);
            }
            key := Some(k);
          } else {
            BeforeTotal(db.State(), k, key.value);
          }
        }
      }
      if key.Some? {
        db.rows := db.rows[key.value := db.rows[key.value].(lease := Some(Lease(owner, now + cfg.lease)))];
      }
    }

    predicate Earlier(k: Key, l: Key)
      requires k in db.rows && l in db.rows
      reads db
      ensures Earlier(k, l) <==> Before(db.State(), k, l)
    {
      || db.rows[k].nextAttemptAt < db.rows[l].nextAttemptAt
      || (db.rows[k].nextAttemptAt == db.rows[l].nextAttemptAt && AtMost(k, l))
    }

    /** DELETE ... WHERE idempotency_key = ? AND lease_owner = ?. */
    method DeleteClaimed(key: Key) returns (deleted: bool)
      modifies db
      ensures deleted == Owns(old(db.State()), key, owner)
      ensures deleted <==> key in old(db.rows) && exists until :: old(db.rows)[key].lease == Some(Lease(owner, until))
      ensures db.State() == if deleted then old(db.State()).(rows := old(db.rows) - {key}) else old(db.State())
    {
      deleted := key in db.rows && db.rows[key].lease.Some? && db.rows[key].lease.value.owner == owner;
      if deleted {
        db.rows := db.rows - {key};
      }
    }

    /** The settling transaction of one flush. */
    method SettleFlush(key: Key, snap: Row, now: int, outcome: Outcome)
      modifies db
      ensures db.State() == Settle(cfg, old(db.State()), key, owner, snap, now, outcome)
    {
      match outcome
      case PastExpiry =>
        var deleted := DeleteClaimed(key);
        if deleted { db.Drop(Expired); }
      case PastDeadline =>
        var deleted := DeleteClaimed(key);
        if deleted { db.Drop(DeadlineExceeded); }
      case Answered(status) =>
        if status == 200 || status == 201 {
          var deleted := DeleteClaimed(key);
          if deleted { db.Increment(Published); }
        } else if !Retryable(status) {
          var deleted := DeleteClaimed(key);
          if deleted { db.Drop(ReasonFor(status)); }
        } else if snap.attempts + 1 >= cfg.maxAttempts {
          var deleted := DeleteClaimed(key);
          if deleted {
            db.Increment(Retried);
            db.Drop(AttemptsExhausted);
          }
        } else if key in db.rows && db.rows[key].lease.Some? && db.rows[key].lease.value.owner == owner {
          db.rows := db.rows[key := Retry(cfg, db.rows[key], snap.attempts + 1, now, ReasonFor(status))];
          db.Increment(Retried);
        }
    }

    /** Claim, read the clock again, try the transport (which answers `status`), settle. */
    method FlushOnce(force: bool, claimAt: int, readAt: int, status: int) returns (progressed: bool)
      modifies db
      ensures !progressed ==>
        && db.State() == old(db.State())
        && forall k :: k in db.rows ==> !Eligible(db.rows[k], tokens, force, claimAt)
      ensures progressed ==> exists key ::
        && Chosen(old(db.State()), tokens, force, claimAt, key)
        && var row := old(db.State()).rows[key];
           db.State() == Settle(cfg, Claim(cfg, old(db.State()), key, owner, claimAt), key, owner, row, readAt, OutcomeAt(row, readAt, status))
      // What becomes of the row the claim takes, by the second clock reading and the transport's answer.
      ensures forall key :: progressed && Chosen(old(db.State()), tokens, force, claimAt, key) ==>
        var row := old(db.rows)[key];
        && (forall k :: k != key ==> (k in db.rows <==> k in old(db.rows)) && (k in db.rows ==> db.rows[k] == old(db.rows)[k]))
        && (readAt >= row.expiresAt ==>
              && key !in db.rows && db.reasons == Bump(old(db.reasons), Expired)
              && db.counters == Bump(Bump(old(db.counters), Dropped), ExpiredCount))
        && (row.deadlineAt <= readAt < row.expiresAt ==>
              && key !in db.rows && db.reasons == Bump(old(db.reasons), DeadlineExceeded)
              && db.counters == Bump(old(db.counters), Dropped))
        && (readAt < row.expiresAt && readAt < row.deadlineAt ==>
              && (status == 200 || status == 201 ==>
                    && key !in db.rows && db.reasons == old(db.reasons)
                    && db.counters == Bump(old(db.counters), Published))
              && (status == 0 || status == 408 || status == 429 || 500 <= status <= 599 ==>
                    if row.attempts + 1 < cfg.maxAttempts then
                      && key in db.rows && db.reasons == old(db.reasons)
                      && db.counters == Bump(old(db.counters), Retried)
                      && db.rows[key] == row.(
                           attempts := row.attempts + 1, nextAttemptAt := readAt + Backoff(cfg, row.attempts + 1),
                           lastReason := Some(if status == 0 then SinkUnavailable else HttpStatus(status)), lease := None)
                    else
                      && key !in db.rows && db.reasons == Bump(old(db.reasons), AttemptsExhausted)
                      && db.counters == Bump(Bump(old(db.counters), Retried), Dropped))
              && (status !in {0, 200, 201, 408, 429} && !(500 <= status <= 599) ==>
                    && key !in db.rows && db.reasons == Bump(old(db.reasons), HttpStatus(status))
                    && db.counters == Bump(old(db.counters), Dropped)))
    {
      ghost var before := db.State();
      var rows := db.rows;
      var key := ClaimNext(force, claimAt);
      if key.None? {
        return false;
      }
      var row := rows[key.value];
      SettleFlush(key.value, row, readAt, OutcomeAt(row, readAt, status));
      assert Chosen(before, tokens, force, claimAt, key.value);
      forall k | Chosen(before, tokens, force, claimAt, k) ensures k == key.value {
        ChosenUnique(before, tokens, force, claimAt, k, key.value);
      }
      return true;
    }

    method ReleaseOwnedLeases()
      modifies db
      ensures db.State() == Release(old(db.State()), owner)
      ensures db.counters == old(db.counters) && db.reasons == old(db.reasons) && db.rows.Keys == old(db.rows).Keys
      ensures forall k :: k in db.rows ==>
        db.rows[k] == if exists until :: old(db.rows)[k].lease == Some(Lease(owner, until))
                      then old(db.rows)[k].(lease := None) else old(db.rows)[k]
    {
      db.rows := map k | k in db.rows ::
        if db.rows[k].lease.Some? && db.rows[k].lease.value.owner == owner then db.rows[k].(lease := None) else db.rows[k];
    }
  }

  lemma BeforeRefl(db: Db, k: Key)
    requires k in db.rows
    ensures Before(db, k, k)
  {
    AtMostTotal(k, k);
  }

  lemma BeforeTotal(db: Db, k: Key, l: Key)
    requires k in db.rows && l in db.rows
    ensures Before(db, k, l) || Before(db, l, k)
  {
    AtMostTotal(k, l);
  }

  lemma BeforeTrans(db: Db, k: Key, l: Key, m: Key)
    requires k in db.rows && l in db.rows && m in db.rows && Before(db, k, l) && Before(db, l, m)
    ensures Before(db, k, m)
  {
    if AtMost(k, l) && AtMost(l, m) {
      AtMostTransitive(k, l, m);
    }
  }

  lemma ChosenUnique(db: Db, sources: set<string>, force: bool, now: int, k: Key, l: Key)
    requires Chosen(db, sources, force, now, k) && Chosen(db, sources, force, now, l)
    ensures k == l
  {
    if AtMost(k, l) && AtMost(l, k) {
      AtMostAntisymmetric(k, l);
    }
  }
}
