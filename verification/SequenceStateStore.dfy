/**
 * sequence_runtime_state: the repository over the table and the per-request
 * store that remembers the version it last saw.
 */
module SequenceStateStore {
  import opened Prelude
  import opened StageOrchestrator

  const INITIAL_VERSION: nat := 1

  datatype AttemptKey = AttemptKey(tenantId: string, learningAttemptId: string)

  /** What one store instance is constructed with. */
  datatype Binding = Binding(key: AttemptKey, studentProfileId: string, enrollmentId: string)

  datatype Row = Row(
    studentProfileId: string,
    enrollmentId: string,
    sequenceId: string,
    sequenceVersion: string,
    runtimeStateId: string,
    currentStageId: string,
    completion: CompletionState,
    state: SequenceState,
    version: nat)

  type Table = map<AttemptKey, Row>

  /** UNIQUE (tenant_id, learning_attempt_id) and UNIQUE (runtime_state_id, tenant_id). */
  predicate MayCreate(rows: Table, key: AttemptKey, runtimeStateId: string) {
    && key !in rows
    && forall k :: k in rows && k.tenantId == key.tenantId ==> rows[k].runtimeStateId != runtimeStateId
  }

  /** UNIQUE (runtime_state_id, tenant_id) as it stands. */
  ghost predicate UniqueRuntimeIds(rows: Table) {
    forall k, l :: k in rows && l in rows && k != l && k.tenantId == l.tenantId ==>
      rows[k].runtimeStateId != rows[l].runtimeStateId
  }

  /** A row may be created exactly when there is none and the constraint survives it. */
  lemma MayCreateIffStillUnique(rows: Table, b: Binding, s: SequenceState)
    requires UniqueRuntimeIds(rows)
    ensures MayCreate(rows, b.key, s.runtimeStateId) <==>
      b.key !in rows && UniqueRuntimeIds(rows[b.key := NewRow(b, s)])
  {
    var after := rows[b.key := NewRow(b, s)];
    assert after[b.key].runtimeStateId == s.runtimeStateId;
    if b.key !in rows && UniqueRuntimeIds(after) {
      forall k | k in rows && k.tenantId == b.key.tenantId ensures rows[k].runtimeStateId != s.runtimeStateId {
        assert after[k] == rows[k];
      }
    }
  }

  function NewRow(b: Binding, s: SequenceState): Row {
    Row(b.studentProfileId, b.enrollmentId, s.sequenceId, s.sequenceVersion, s.runtimeStateId,
        s.currentStageId, s.completion, s, INITIAL_VERSION)
  }

  predicate MaySave(rows: Table, key: AttemptKey, expectedVersion: nat) {
    key in rows && rows[key].version == expectedVersion
  }

  /** The guarded UPDATE writes three columns and bumps the version. */
  function SavedRow(r: Row, s: SequenceState): Row {
    r.(currentStageId := s.currentStageId, completion := s.completion, state := s, version := r.version + 1)
  }

  class SequenceRuntimeStateRepository {
    var rows: Table

    constructor ()
      ensures rows == map[]
    {
      rows := map[];
    }

    method FindByAttempt(key: AttemptKey) returns (found: Option<Row>)
      ensures found == if key in rows then Some(rows[key]) else None
    {
      found := if key in rows then Some(rows[key]) else None;
    }

    /** None stands for the "already exists" error of a unique violation. */
    method Create(b: Binding, s: SequenceState) returns (created: Option<Row>)
      modifies this
      ensures created.Some? <==> MayCreate(old(rows), b.key, s.runtimeStateId)
      ensures created.Some? ==>
        && created.value == NewRow(b, s)
        && rows == old(rows)[b.key := created.value]
      ensures created.None? ==> rows == old(rows)
    {
      if MayCreate(rows, b.key, s.runtimeStateId) {
        created := Some(NewRow(b, s));
        rows := rows[b.key := created.value];
      } else {
        created := None;
      }
    }

    method Save(key: AttemptKey, expectedVersion: nat, s: SequenceState) returns (saved: Option<Row>)
      modifies this
      ensures saved.Some? <==> MaySave(old(rows), key, expectedVersion)
      ensures saved.Some? ==>
        && saved.value == SavedRow(old(rows)[key], s)
        && rows == old(rows)[key := saved.value]
      ensures saved.None? ==> rows == old(rows)
    {
      if key in rows && rows[key].version == expectedVersion {
        saved := Some(SavedRow(rows[key], s));
        rows := rows[key := saved.value];
      } else {
        saved := None;
      }
    }
  }

  datatype GetOutcome = Found(state: SequenceState) | NotYet | OtherRuntimeState

  datatype SaveOutcome = Saved | AlreadyExists | VersionConflict

  /** A store operation as a whole: the table and the remembered version after it. */
  datatype GetEffect = GetEffect(known: Option<nat>, outcome: GetOutcome)

  datatype SaveEffect = SaveEffect(rows: Table, known: Option<nat>, outcome: SaveOutcome)

  function StoreGet(rows: Table, b: Binding, known: Option<nat>, runtimeStateId: string): GetEffect {
    if b.key !in rows then GetEffect(known, NotYet)
    else if rows[b.key].state.runtimeStateId != runtimeStateId then GetEffect(known, OtherRuntimeState)
    else GetEffect(Some(rows[b.key].version), Found(rows[b.key].state))
  }

  function StoreSave(rows: Table, b: Binding, known: Option<nat>, s: SequenceState): SaveEffect {
    match known
    case None =>
      if MayCreate(rows, b.key, s.runtimeStateId) then
        SaveEffect(rows[b.key := NewRow(b, s)], Some(INITIAL_VERSION), Saved)
      else SaveEffect(rows, known, AlreadyExists)
    case Some(v) =>
      if MaySave(rows, b.key, v) then
        SaveEffect(rows[b.key := SavedRow(rows[b.key], s)], Some(v + 1), Saved)
      else SaveEffect(rows, known, VersionConflict)
  }

  class DurableSequenceRuntimeStateStore {
    const repository: SequenceRuntimeStateRepository
    const binding: Binding
    var lastKnownVersion: Option<nat>

    constructor (repository: SequenceRuntimeStateRepository, binding: Binding)
      ensures this.repository == repository && this.binding == binding
      ensures lastKnownVersion == None
    {
      this.repository := repository;
      this.binding := binding;
      lastKnownVersion := None;
    }

    method Get(runtimeStateId: string) returns (outcome: GetOutcome)
      modifies this
      ensures GetEffect(lastKnownVersion, outcome) ==
              StoreGet(repository.rows, binding, old(lastKnownVersion), runtimeStateId)
    {
      var persisted := repository.FindByAttempt(binding.key);
      if persisted.None? {
        return NotYet;
      }
      if persisted.value.state.runtimeStateId != runtimeStateId {
        return OtherRuntimeState;
      }
      lastKnownVersion := Some(persisted.value.version);
      return Found(persisted.value.state);
    }

    method Save(s: SequenceState) returns (outcome: SaveOutcome)
      modifies this, repository
      ensures SaveEffect(repository.rows, lastKnownVersion, outcome) ==
              StoreSave(old(repository.rows), binding, old(lastKnownVersion), s)
    {
      if lastKnownVersion.None? {
        var created := repository.Create(binding, s);
        if created.None? {
          return AlreadyExists;
        }
        lastKnownVersion := Some(created.value.version);
        return Saved;
      }
      var saved := repository.Save(binding.key, lastKnownVersion.value, s);
      if saved.None? {
        return VersionConflict;
      }
      lastKnownVersion := Some(saved.value.version);
      return Saved;
    }
  }
}
