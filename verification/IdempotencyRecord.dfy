/**
 * The idempotency_record table and its three operations, one SQL statement per
 * method. Times are microseconds (the resolution of a Postgres timestamp); the
 * service's own clock reads them truncated to milliseconds.
 */
module IdempotencyRecord {
  import opened Prelude

  const RETRY_WINDOW_SECONDS: nat := 30
  const MICROS_PER_SECOND: nat := 1_000_000
  const RETRY_WINDOW: nat := RETRY_WINDOW_SECONDS * MICROS_PER_SECOND
  const INITIAL_GENERATION: nat := 1

  /** `tenant` is None for the one platform-wide scope. */
  datatype Key = Key(tenant: Option<string>, scope: string, scopeKey: string)

  datatype Status = Pending | Completed | Failed

  datatype Record = Record(
    requestHash: string,
    status: Status,
    generation: nat,
    response: Option<string>,
    failureRetryable: Option<bool>,
    updatedAt: int)

  datatype Row = Row(key: Key, record: Record)

  type Table = map<Key, Record>

  datatype Grant = Grant(insertedFresh: bool, generation: nat)

  datatype BeginOutcome =
    | New(generation: nat)
    | Reopened(generation: nat)
    | DuplicateSamePayload(response: Option<string>)
    | ConflictDifferentPayload
    | FailedTerminal(response: Option<string>)
    | RetryTooSoon(retryAfterSeconds: int)

  datatype BeginError = NoExistingRow

  datatype Finish = CompleteWith(response: string) | FailWith(retryable: bool, response: string)

  datatype FinishOutcome = Committed | StaleGeneration

  // ---------------------------------------------------------------- keys and NULL

  /** `IS NOT DISTINCT FROM` on the tenant, `=` on the rest. */
  predicate SameKey(a: Key, b: Key) {
    a == b
  }

  /** Conflict on UNIQUE (tenant_id, scope, scope_key): SQL NULL equals nothing. */
  predicate CompositeConflict(a: Key, b: Key) {
    && a.tenant.Some? && b.tenant.Some? && a.tenant.value == b.tenant.value
    && a.scope == b.scope && a.scopeKey == b.scopeKey
  }

  /** Conflict on the partial index (scope, scope_key) WHERE tenant_id IS NULL. */
  predicate PartialConflict(a: Key, b: Key) {
    a.tenant.None? && b.tenant.None? && a.scope == b.scope && a.scopeKey == b.scopeKey
  }

  /** The arbiter that `begin` names in ON CONFLICT. */
  predicate ArbiterConflict(row: Key, inserted: Key) {
    if inserted.tenant.None? then PartialConflict(row, inserted) else CompositeConflict(row, inserted)
  }

  ghost predicate UniqueKeys(rows: seq<Row>) {
    forall i, j :: 0 <= i < j < |rows| ==> !SameKey(rows[i].key, rows[j].key)
  }

  /** The table as a partial function; meaningful when keys are unique. */
  function View(rows: seq<Row>): Table {
    if |rows| == 0 then map[] else View(Front(rows))[Last(rows).key := Last(rows).record]
  }

  /** Position of the row that conflicts with `key`, or |rows|. */
  function FindConflict(rows: seq<Row>, key: Key): (i: nat)
    ensures i <= |rows|
    ensures i < |rows| ==> rows[i].key == key
    ensures i == |rows| ==> forall j :: 0 <= j < |rows| ==> rows[j].key != key
  {
    if |rows| == 0 then 0
    else if ArbiterConflict(Last(rows).key, key) then |rows| - 1
    else
      var i := FindConflict(Front(rows), key);
      if i == |rows| - 1 then |rows| else i
  }

  predicate HasRow(rows: seq<Row>, k: Key) {
    exists i :: 0 <= i < |rows| && rows[i].key == k
  }

  lemma {:induction false} ViewOfUniqueRows(rows: seq<Row>)
    requires UniqueKeys(rows)
    ensures forall i :: 0 <= i < |rows| ==> rows[i].key in View(rows) && View(rows)[rows[i].key] == rows[i].record
    ensures forall k :: k in View(rows) <==> HasRow(rows, k)
  {
    if |rows| > 0 {
      var front := Front(rows);
      ViewOfUniqueRows(front);
      forall i | 0 <= i < |rows|
        ensures rows[i].key in View(rows) && View(rows)[rows[i].key] == rows[i].record
      {
        if i < |front| { assert front[i] == rows[i]; }
      }
      forall k | k in View(rows)
        ensures HasRow(rows, k)
      {
        if k == Last(rows).key {
          assert rows[|rows| - 1].key == k;
        } else {
          assert HasRow(front, k);
          var i :| 0 <= i < |front| && front[i].key == k;
          assert rows[i].key == k;
        }
      }
    }
  }

  lemma {:induction false} ViewOfReplacedRow(rows: seq<Row>, i: nat, record: Record)
    requires UniqueKeys(rows) && i < |rows|
    ensures UniqueKeys(rows[i := Row(rows[i].key, record)])
    ensures View(rows[i := Row(rows[i].key, record)]) == View(rows)[rows[i].key := record]
  {
    var updated := rows[i := Row(rows[i].key, record)];
    if i == |rows| - 1 {
      assert Front(updated) == Front(rows);
    } else {
      assert Front(updated) == Front(rows)[i := Row(rows[i].key, record)];
      ViewOfReplacedRow(Front(rows), i, record);
      assert Last(rows).key != rows[i].key;
    }
  }

  // ---------------------------------------------------------------- what each statement does

  predicate MayReopen(r: Record, hash: string, now: int) {
    && r.status == Failed
    && r.failureRetryable == Some(true)
    && r.requestHash == hash
    && r.updatedAt < now - RETRY_WINDOW
  }

  function UpsertResult(t: Table, k: Key, hash: string, now: int): Option<Grant> {
    if k !in t then Some(Grant(true, INITIAL_GENERATION))
    else if MayReopen(t[k], hash, now) then Some(Grant(false, t[k].generation + 1))
    else None
  }

  function AfterUpsert(t: Table, k: Key, hash: string, now: int): Table {
    match UpsertResult(t, k, hash, now)
    case None => t
    case Some(g) => t[k := Record(hash, Pending, g.generation, None, None, now)]
  }

  /** Milliseconds since `since` on the service's millisecond clock. */
  function ElapsedMillis(since: int, now: int): int {
    now / 1000 - since / 1000
  }

  function RetryAfter(updatedAt: int, now: int): int {
    Max(0, RETRY_WINDOW_SECONDS - ElapsedMillis(updatedAt, now) / 1000)
  }

  function Classify(t: Table, k: Key, hash: string, now: int): Result<BeginOutcome, BeginError> {
    if k !in t then Err(NoExistingRow)
    else
      var r := t[k];
      if r.requestHash != hash then Ok(ConflictDifferentPayload)
      else match r.status
        case Completed => Ok(DuplicateSamePayload(r.response))
        case Failed =>
          if r.failureRetryable != Some(true) then Ok(FailedTerminal(r.response))
          else Ok(RetryTooSoon(RetryAfter(r.updatedAt, now)))
        case Pending => Ok(RetryTooSoon(RETRY_WINDOW_SECONDS))
  }

  function GrantOutcome(g: Grant): BeginOutcome {
    if g.insertedFresh then New(g.generation) else Reopened(g.generation)
  }

  /** What `begin` would answer if its two statements ran at one instant. */
  function AtomicBegin(t: Table, k: Key, hash: string, now: int): Result<BeginOutcome, BeginError> {
    match UpsertResult(t, k, hash, now)
    case Some(g) => Ok(GrantOutcome(g))
    case None => Classify(t, k, hash, now)
  }

  predicate MayFinish(t: Table, k: Key, generation: nat) {
    k in t && t[k].status == Pending && t[k].generation == generation
  }

  function FinishedRecord(r: Record, f: Finish, now: int): Record {
    match f
    case CompleteWith(response) =>
      r.(status := Completed, response := Some(response), failureRetryable := None, updatedAt := now)
    case FailWith(retryable, response) =>
      r.(status := Failed, response := Some(response), failureRetryable := Some(retryable), updatedAt := now)
  }

  function AfterFinish(t: Table, k: Key, generation: nat, f: Finish, now: int): Table {
    if MayFinish(t, k, generation) then t[k := FinishedRecord(t[k], f, now)] else t
  }

  // ---------------------------------------------------------------- the repository

  class IdempotencyRecordRepository {
    var rows: seq<Row>

    ghost predicate Valid()
      reads this
    {
      UniqueKeys(rows)
    }

    ghost function Contents(): Table
      reads this
    {
      View(rows)
    }

    constructor ()
      ensures Valid() && Contents() == map[]
    {
      rows := [];
    }

    /** INSERT ... ON CONFLICT DO UPDATE ... WHERE ... RETURNING. */
    method Upsert(key: Key, hash: string, now: int) returns (granted: Option<Grant>)
      requires Valid()
      modifies this
      ensures Valid()
      ensures granted == UpsertResult(old(Contents()), key, hash, now)
      ensures Contents() == AfterUpsert(old(Contents()), key, hash, now)
    {
      ViewOfUniqueRows(rows);
      var i := FindConflict(rows, key);
      if i == |rows| {
        rows := rows + [Row(key, Record(hash, Pending, INITIAL_GENERATION, None, None, now))];
        assert Front(rows) == old(rows);
        return Some(Grant(true, INITIAL_GENERATION));
      }
      var r := rows[i].record;
      if r.status == Failed && r.failureRetryable == Some(true) && r.requestHash == hash
         && r.updatedAt < now - RETRY_WINDOW
      {
        var reopened := Record(hash, Pending, r.generation + 1, None, None, now);
        ViewOfReplacedRow(rows, i, reopened);
        rows := rows[i := Row(rows[i].key, reopened)];
        return Some(Grant(false, reopened.generation));
      }
      return None;
    }

    /** The SELECT that classifies the existing row. */
    method ClassifyExisting(key: Key, hash: string, now: int) returns (r: Result<BeginOutcome, BeginError>)
      requires Valid()
      ensures r == Classify(Contents(), key, hash, now)
    {
      ViewOfUniqueRows(rows);
      var i := FindConflict(rows, key);
      if i == |rows| {
        return Err(NoExistingRow);
      }
      var existing := rows[i].record;
      if existing.requestHash != hash {
        return Ok(ConflictDifferentPayload);
      }
      if existing.status == Completed {
        return Ok(DuplicateSamePayload(existing.response));
      }
      if existing.status == Failed {
        if existing.failureRetryable != Some(true) {
          return Ok(FailedTerminal(existing.response));
        }
        var elapsed := now / 1000 - existing.updatedAt / 1000;
        return Ok(RetryTooSoon(Max(0, RETRY_WINDOW_SECONDS - elapsed / 1000)));
      }
      return Ok(RetryTooSoon(RETRY_WINDOW_SECONDS));
    }

    /** A whole `begin` that nothing interrupts; `later` is the clock at the second statement. */
    method Begin(key: Key, hash: string, now: int, later: int) returns (r: Result<BeginOutcome, BeginError>)
      requires Valid()
      modifies this
      ensures Valid()
      ensures Contents() == AfterUpsert(old(Contents()), key, hash, now)
      ensures key in Contents()
      ensures r.Ok?
      ensures r.value.New? <==> key !in old(Contents())
      ensures r.value.Reopened? <==> key in old(Contents()) && MayReopen(old(Contents())[key], hash, now)
      ensures r.value.New? || r.value.Reopened? ==>
        Contents()[key] == Record(hash, Pending, r.value.generation, None, None, now)
      ensures !r.value.New? && !r.value.Reopened? ==>
        Contents() == old(Contents()) && r == Classify(Contents(), key, hash, later)
    {
      var granted := Upsert(key, hash, now);
      match granted {
        case Some(g) => r := Ok(GrantOutcome(g));
        case None => r := ClassifyExisting(key, hash, later);
      }
    }

    /** UPDATE ... WHERE status = 'PENDING' AND generation = $4, shared by `complete` and `fail`. */
    method FinishPending(key: Key, generation: nat, f: Finish, now: int) returns (r: FinishOutcome)
      requires Valid()
      modifies this
      ensures Valid()
      ensures r == Committed <==> MayFinish(old(Contents()), key, generation)
      ensures Contents() == AfterFinish(old(Contents()), key, generation, f, now)
    {
      ViewOfUniqueRows(rows);
      var i := FindConflict(rows, key);
      if i < |rows| && rows[i].record.status == Pending && rows[i].record.generation == generation {
        var finished := FinishedRecord(rows[i].record, f, now);
        ViewOfReplacedRow(rows, i, finished);
        rows := rows[i := Row(rows[i].key, finished)];
        return Committed;
      }
      return StaleGeneration;
    }

    method Complete(key: Key, expectedGeneration: nat, response: string, now: int) returns (r: FinishOutcome)
      requires Valid()
      modifies this
      ensures Valid()
      ensures r == Committed <==> MayFinish(old(Contents()), key, expectedGeneration)
      ensures Contents() == AfterFinish(old(Contents()), key, expectedGeneration, CompleteWith(response), now)
    {
      r := FinishPending(key, expectedGeneration, CompleteWith(response), now);
    }

    method Fail(key: Key, expectedGeneration: nat, retryable: bool, response: string, now: int)
      returns (r: FinishOutcome)
      requires Valid()
      modifies this
      ensures Valid()
      ensures r == Committed <==> MayFinish(old(Contents()), key, expectedGeneration)
      ensures Contents() == AfterFinish(old(Contents()), key, expectedGeneration, FailWith(retryable, response), now)
    {
      r := FinishPending(key, expectedGeneration, FailWith(retryable, response), now);
    }
  }

  /**
   * The arbiter chosen by `begin` detects exactly the rows with the same key, the
   * null tenant included; the composite constraint alone detects them exactly when
   * the tenant is not null.
   */
  lemma ArbiterIsNullSafe(row: Key, inserted: Key)
    ensures ArbiterConflict(row, inserted) <==> SameKey(row, inserted)
    ensures (CompositeConflict(row, inserted) <==> SameKey(row, inserted)) <==>
            (row == inserted ==> inserted.tenant.Some?)
  {
    if row == inserted && inserted.tenant.None? {
      assert SameKey(row, inserted) && !CompositeConflict(row, inserted);
    }
  }
}
