/** The activity outbox: its rows, counters and leases, and the database transactions that change
    them, each as a function of the whole database value. */
module Outbox {
  import opened Wrappers
  import opened Text
  import opened Totals

  type Key = string    // idempotency key
  type Owner = nat     // lease owner, fresh for every publisher process

  datatype Reason =
    | CredentialUnavailable | QueueRecordsExceeded | QueueBytesExceeded
    | Expired | DeadlineExceeded | AttemptsExhausted
    | SinkUnavailable | HttpStatus(code: int)

  /** Only a row that was inserted can be dropped for the other reasons. */
  predicate RefusedAtEnqueue(r: Reason) {
    r.CredentialUnavailable? || r.QueueRecordsExceeded? || r.QueueBytesExceeded?
  }

  datatype Lease = Lease(owner: Owner, until: int)

  datatype Row = Row(
    source: string,
    runId: string,
    body: string,
    expiresAt: int,
    deadlineAt: int,
    attempts: nat,
    nextAttemptAt: int,
    lastReason: Option<Reason>,
    lease: Option<Lease>
  )

  datatype Counter = Published | Retried | ExpiredCount | Dropped

  datatype Db = Db(rows: map<Key, Row>, counters: map<Counter, nat>, reasons: map<Reason, nat>)

  /** Times in integer milliseconds. `leastBody` is not a setting: it is the length of the shortest
      request body there is, an encoded object and so never empty. */
  datatype Config = Config(
    maxRecords: nat,
    maxBytes: nat,
    maxAttempts: nat,
    deadline: nat,
    lease: nat,
    initialBackoff: nat,
    maxBackoff: nat,
    leastBody: nat
  )

  predicate ValidConfig(cfg: Config) {
    && cfg.maxRecords >= 1 && cfg.maxBytes >= 1 && cfg.maxAttempts >= 1
    && cfg.deadline >= 1 && cfg.lease >= 1 && 1 <= cfg.initialBackoff <= cfg.maxBackoff
    && cfg.leastBody >= 1
  }

  // ----- counters -----

  function Value<K>(m: map<K, nat>, k: K): nat {
    if k in m then m[k] else 0
  }

  /** INSERT ... ON CONFLICT DO UPDATE SET value = value + 1. */
  function Bump<K>(m: map<K, nat>, k: K): map<K, nat> {
    m[k := Value(m, k) + 1]
  }

  function Increment(db: Db, c: Counter): Db {
    db.(counters := Bump(db.counters, c))
  }

  function Drop(db: Db, r: Reason): (db': Db)
    ensures db'.rows == db.rows
  {
    var counted := Increment(db, Dropped);
    var expired := if r.Expired? then Increment(counted, ExpiredCount) else counted;
    expired.(reasons := Bump(db.reasons, r))
  }

  // ----- enqueue -----

  ghost function Sizes(rows: map<Key, Row>): map<Key, nat> {
    map k | k in rows :: |rows[k].body|
  }

  ghost function Bytes(rows: map<Key, Row>): nat {
    Total(Sizes(rows))
  }

  datatype Admission = Duplicate(same: bool) | Refused(reason: Reason) | Admitted

  /** The check half of an enqueue, on what one connection reads. */
  ghost function Admit(cfg: Config, db: Db, key: Key, body: string): (a: Admission)
    ensures a.Refused? ==> RefusedAtEnqueue(a.reason)
  {
    if key in db.rows then Duplicate(db.rows[key].body == body)
    else if |db.rows| >= cfg.maxRecords then Refused(QueueRecordsExceeded)
    else if Bytes(db.rows) + |body| > cfg.maxBytes then Refused(QueueBytesExceeded)
    else Admitted
  }

  /** A row as an enqueue writes it: untried, unleased, deadline no later than its expiry. */
  predicate IsNew(cfg: Config, row: Row, now: int) {
    && row.attempts == 0 && row.lease.None? && row.lastReason.None? && row.nextAttemptAt == now
    && row.deadlineAt == (if row.expiresAt <= now + cfg.deadline then row.expiresAt else now + cfg.deadline)
  }

  /** The insert half; the primary key refuses a row another process inserted meanwhile. */
  function Insert(db: Db, key: Key, row: Row): Db {
    if key in db.rows then db else db.(rows := db.rows[key := row])
  }

  // ----- claim and settle -----

  predicate Eligible(row: Row, sources: set<string>, force: bool, now: int) {
    && row.source in sources && (force || row.nextAttemptAt <= now)
    && (row.lease.None? || row.lease.value.until <= now)
  }

  predicate Before(db: Db, k: Key, l: Key)
    requires k in db.rows && l in db.rows
  {
    || db.rows[k].nextAttemptAt < db.rows[l].nextAttemptAt
    || (db.rows[k].nextAttemptAt == db.rows[l].nextAttemptAt && AtMost(k, l))
  }

  /** The row a claim takes: the first eligible one by next attempt, then key. */
  ghost predicate Chosen(db: Db, sources: set<string>, force: bool, now: int, key: Key) {
    && key in db.rows && Eligible(db.rows[key], sources, force, now)
    && (forall l :: l in db.rows && Eligible(db.rows[l], sources, force, now) ==> Before(db, key, l))
  }

  function Claim(cfg: Config, db: Db, key: Key, owner: Owner, now: int): Db
    requires key in db.rows
  {
    db.(rows := db.rows[key := db.rows[key].(lease := Some(Lease(owner, now + cfg.lease)))])
  }

  predicate Owns(db: Db, key: Key, owner: Owner) {
    key in db.rows && db.rows[key].lease.Some? && db.rows[key].lease.value.owner == owner
  }

  function Delete(db: Db, key: Key): Db {
    db.(rows := db.rows - {key})
  }

  /** What a flush found out about its row; status 0 stands for a transport exception. */
  datatype Outcome = PastExpiry | PastDeadline | Answered(status: int)

  predicate Delivered(status: int) {
    status == 200 || status == 201
  }

  predicate Retryable(status: int) {
    status == 0 || status == 408 || status == 429 || 500 <= status <= 599
  }

  function ReasonFor(status: int): Reason {
    if status == 0 then SinkUnavailable else HttpStatus(status)
  }

  function Doubled(delay: nat, times: nat): nat {
    if times == 0 then delay else 2 * Doubled(delay, times - 1)
  }

  function Backoff(cfg: Config, attempts: nat): nat
    requires attempts >= 1
  {
    var delay := Doubled(cfg.initialBackoff, attempts - 1);
    if delay <= cfg.maxBackoff then delay else cfg.maxBackoff
  }

  /** The row a retry leaves behind. */
  function Retry(cfg: Config, row: Row, attempts: nat, now: int, r: Reason): Row
    requires attempts >= 1
  {
    row.(attempts := attempts, nextAttemptAt := now + Backoff(cfg, attempts), lastReason := Some(r), lease := None)
  }

  /** The settling transaction of a flush that read `snap` when it claimed; it only acts while the
      row still carries the flush's own lease. */
  function Settle(cfg: Config, db: Db, key: Key, owner: Owner, snap: Row, now: int, outcome: Outcome): Db {
    if !Owns(db, key, owner) then db
    else
      match outcome
      case PastExpiry => Drop(Delete(db, key), Expired)
      case PastDeadline => Drop(Delete(db, key), DeadlineExceeded)
      case Answered(status) =>
        if Delivered(status) then Increment(Delete(db, key), Published)
        else if !Retryable(status) then Drop(Delete(db, key), ReasonFor(status))
        else if snap.attempts + 1 >= cfg.maxAttempts then Drop(Increment(Delete(db, key), Retried), AttemptsExhausted)
        else
          var row := Retry(cfg, db.rows[key], snap.attempts + 1, now, ReasonFor(status));
          Increment(db.(rows := db.rows[key := row]), Retried)
  }

  function Unleased(row: Row, owner: Owner): Row {
    if row.lease.Some? && row.lease.value.owner == owner then row.(lease := None) else row
  }

  function Release(db: Db, owner: Owner): Db {
    db.(rows := map k | k in db.rows :: Unleased(db.rows[k], owner))
  }

  // ----- what the counters say -----

  /** Drops of rows that had been inserted, read off the drop reasons. */
  ghost function InsertedDrops(reasons: map<Reason, nat>): nat {
    Total(AfterInsertion(reasons))
  }

  ghost function AfterInsertion(reasons: map<Reason, nat>): map<Reason, nat> {
    map r | r in reasons && !RefusedAtEnqueue(r) :: reasons[r]
  }

  /** The books balance for a database into which `inserted` rows have ever been put. */
  ghost predicate Balanced(db: Db, inserted: nat) {
    && inserted == |db.rows| + Value(db.counters, Published) + InsertedDrops(db.reasons)
    && Value(db.counters, Dropped) == Total(db.reasons)
    && Value(db.counters, ExpiredCount) == Value(db.reasons, Expired)
  }

  lemma TotalBump<K>(m: map<K, nat>, k: K)
    ensures Total(Bump(m, k)) == Total(m) + 1
  {
    if k in m {
      TotalUpdate(m, k, m[k] + 1);
    } else {
      TotalInsert(m, k, 1);
    }
  }

  lemma InsertedDropsBump(db: Db, r: Reason)
    ensures InsertedDrops(Drop(db, r).reasons) == InsertedDrops(db.reasons) + (if RefusedAtEnqueue(r) then 0 else 1)
  {
    hide Total;
    AfterInsertionBump(db.reasons, r);
    TotalBump(AfterInsertion(db.reasons), r);
  }

  lemma AfterInsertionBump(reasons: map<Reason, nat>, r: Reason)
    ensures RefusedAtEnqueue(r) ==> AfterInsertion(Bump(reasons, r)) == AfterInsertion(reasons)
    ensures !RefusedAtEnqueue(r) ==> AfterInsertion(Bump(reasons, r)) == Bump(AfterInsertion(reasons), r)
  {}

  /** A drop keeps the books: a refused enqueue takes no row, any other drop takes exactly one. */
  lemma DropBalances(db: Db, r: Reason, inserted: nat)
    requires Balanced(db, inserted)
    ensures Balanced(Drop(db, r), inserted + (if RefusedAtEnqueue(r) then 0 else 1))
  {
    hide Total, InsertedDrops;
    InsertedDropsBump(db, r);
    TotalBump(db.reasons, r);
  }

  lemma DeleteCount(db: Db, key: Key)
    requires key in db.rows
    ensures |Delete(db, key).rows| == |db.rows| - 1
  {
    assert (db.rows - {key}).Keys == db.rows.Keys - {key};
  }

  lemma DeleteBalances(db: Db, key: Key, inserted: nat)
    requires Balanced(db, inserted) && key in db.rows
    ensures inserted >= 1 && Balanced(Delete(db, key), inserted - 1)
  {
    hide Total, InsertedDrops;
    DeleteCount(db, key);
  }

  lemma SettleBalances(cfg: Config, db: Db, key: Key, owner: Owner, snap: Row, now: int, outcome: Outcome, inserted: nat)
    requires Balanced(db, inserted)
    ensures Balanced(Settle(cfg, db, key, owner, snap, now, outcome), inserted)
  {
    hide Balanced;
    if Owns(db, key, owner) {
      DeleteBalances(db, key, inserted);
      match outcome
      case PastExpiry => DropBalances(Delete(db, key), Expired, inserted - 1);
      case PastDeadline => DropBalances(Delete(db, key), DeadlineExceeded, inserted - 1);
      case Answered(status) =>
        if Delivered(status) {
          PublishBalances(Delete(db, key), inserted - 1);
        } else if !Retryable(status) {
          DropBalances(Delete(db, key), ReasonFor(status), inserted - 1);
        } else if snap.attempts + 1 >= cfg.maxAttempts {
          RetriedBalances(Delete(db, key), inserted - 1);
          DropBalances(Increment(Delete(db, key), Retried), AttemptsExhausted, inserted - 1);
        } else {
          var row := Retry(cfg, db.rows[key], snap.attempts + 1, now, ReasonFor(status));
          ReplaceBalances(db, key, row, inserted);
          RetriedBalances(db.(rows := db.rows[key := row]), inserted);
        }
    }
  }

  lemma PublishBalances(db: Db, inserted: nat)
    requires Balanced(db, inserted)
    ensures Balanced(Increment(db, Published), inserted + 1)
  {
    hide Total, InsertedDrops;
  }

  lemma RetriedBalances(db: Db, inserted: nat)
    requires Balanced(db, inserted)
    ensures Balanced(Increment(db, Retried), inserted)
  {
    hide Total, InsertedDrops;
  }

  lemma ReplaceBalances(db: Db, key: Key, row: Row, inserted: nat)
    requires Balanced(db, inserted) && key in db.rows
    ensures Balanced(db.(rows := db.rows[key := row]), inserted)
  {
    hide Total, InsertedDrops;
    assert db.rows[key := row].Keys == db.rows.Keys;
  }

  lemma ReleaseBalances(db: Db, owner: Owner, inserted: nat)
    requires Balanced(db, inserted)
    ensures Balanced(Release(db, owner), inserted)
  {
    hide Total, InsertedDrops;
    assert Release(db, owner).rows.Keys == db.rows.Keys;
  }

  lemma OneMore<K, V>(m: map<K, V>, k: K, v: V)
    requires k !in m
    ensures |m[k := v]| == |m| + 1
  {
    assert m[k := v].Keys == m.Keys + {k};
  }

  lemma InsertBalances(db: Db, key: Key, row: Row, inserted: nat)
    requires Balanced(db, inserted)
    ensures Balanced(Insert(db, key, row), inserted + (if key in db.rows then 0 else 1))
  {
    hide Total, InsertedDrops, Value;
    if key !in db.rows {
      OneMore(db.rows, key, row);
    }
  }
}
