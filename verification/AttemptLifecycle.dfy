/** The learning_attempt row and its guarded transitions. */
module AttemptLifecycle {
  import opened Prelude

  datatype AttemptState = Created | InProgress | CompletionSubmitted | Completed | Abandoned | Expired

  datatype CompletionStatus = AcceptedNotConsolidated | ReconciliationRequired | Consolidated

  /** The statuses a pending attempt may carry. */
  type PendingStatus = s: CompletionStatus | s != Consolidated witness AcceptedNotConsolidated

  datatype RuntimeChannel = Web | Roblox | UnknownLegacy

  datatype Outcome = Outcome(attemptId: string, score: Option<nat>, consolidatedAt: int)

  /** Columns no transition ever writes. */
  datatype Identity = Identity(
    id: string,
    tenantId: string,
    assignmentId: string,
    studentProfileId: string,
    contentId: string,
    runtimeChannel: RuntimeChannel,
    runtimeVersion: Option<string>,
    startedAt: int,
    eventId: string,
    creationIdempotencyKey: string)

  datatype Attempt = Attempt(
    identity: Identity,
    state: AttemptState,
    completionStatus: Option<CompletionStatus>,
    completedAt: Option<int>,
    outcome: Option<Outcome>)

  /** The table's lifecycle CHECK. */
  predicate LifecycleCheck(a: Attempt) {
    match a.state
    case CompletionSubmitted =>
      && a.completionStatus in {Some(AcceptedNotConsolidated), Some(ReconciliationRequired)}
      && a.completedAt == None && a.outcome == None
    case Completed => a.completionStatus == Some(Consolidated) && a.completedAt.Some? && a.outcome.Some?
    case _ => a.completionStatus == None && a.completedAt == None && a.outcome == None
  }

  function NewAttempt(identity: Identity): Attempt {
    Attempt(identity, Created, None, None, None)
  }

  datatype Transition =
    | ToInProgress
    | ToSubmitted(status: PendingStatus)
    | UpdatePending(status: PendingStatus)
    | Consolidate(outcome: Outcome, now: int)

  /** The state a transition's WHERE clause asks for. */
  function SourceState(t: Transition): AttemptState {
    match t
    case ToInProgress => Created
    case ToSubmitted(_) => InProgress
    case UpdatePending(_) => CompletionSubmitted
    case Consolidate(_, _) => CompletionSubmitted
  }

  function Written(a: Attempt, t: Transition): Attempt {
    match t
    case ToInProgress => a.(state := InProgress)
    case ToSubmitted(status) => a.(state := CompletionSubmitted, completionStatus := Some(status))
    case UpdatePending(status) => a.(completionStatus := Some(status))
    case Consolidate(outcome, now) =>
      a.(state := Completed, completionStatus := Some(Consolidated), completedAt := Some(now), outcome := Some(outcome))
  }

  predicate Fires(a: Attempt, t: Transition) {
    a.state == SourceState(t)
  }

  function Transitioned(a: Attempt, t: Transition): Attempt {
    if Fires(a, t) then Written(a, t) else a
  }

  /** UNIQUE (event_id) and UNIQUE (tenant_id, assignment_id, student_profile_id, creation_idempotency_key). */
  predicate Clashes(a: Identity, b: Identity) {
    a.eventId == b.eventId || SameCreation(a, b)
  }

  predicate SameCreation(a: Identity, b: Identity) {
    && a.tenantId == b.tenantId && a.assignmentId == b.assignmentId && a.studentProfileId == b.studentProfileId
    && a.creationIdempotencyKey == b.creationIdempotencyKey
  }

  class LearningAttemptRepository {
    var rows: map<string, Attempt>

    /** Rows are filed under their id, satisfy the CHECK, so no UPDATE is refused by it, and do not clash. */
    ghost predicate Valid()
      reads this
    {
      && (forall id :: id in rows ==> rows[id].identity.id == id && LifecycleCheck(rows[id]))
      && forall i, j :: i in rows && j in rows && i != j ==> !Clashes(rows[i].identity, rows[j].identity)
    }

    constructor ()
      ensures Valid() && rows == map[]
    {
      rows := map[];
    }

    predicate Owns(id: string, tenantId: string)
      reads this
    {
      id in rows && rows[id].identity.tenantId == tenantId
    }

    /**
     * The database generates the id, so it is new. `referenced` says whether assignment, student,
     * enrollment and bundle exist in the tenant; None stands for the error of a constraint.
     */
    method Create(identity: Identity, referenced: bool) returns (created: Option<Attempt>)
      requires Valid() && identity.id !in rows
      modifies this
      ensures Valid()
      ensures created.Some? <==> referenced && forall id :: id in old(rows) ==> !Clashes(old(rows)[id].identity, identity)
      ensures created.Some? ==> forall id :: id in old(rows) ==>
        old(rows)[id].identity.eventId != identity.eventId && !SameCreation(old(rows)[id].identity, identity)
      ensures created.Some? ==>
        && created.value == NewAttempt(identity)
        && rows == old(rows)[identity.id := created.value]
      ensures created.None? ==> rows == old(rows)
    {
      if !referenced || exists id :: id in rows && Clashes(rows[id].identity, identity) {
        return None;
      }
      created := Some(NewAttempt(identity));
      rows := rows[identity.id := created.value];
    }

    /** At most one attempt has a creation key, so the lookup is unambiguous. */
    method FindByCreationKey(wanted: Identity) returns (found: Option<Attempt>)
      requires Valid()
      ensures found.Some? ==>
        && found.value.identity.id in rows && rows[found.value.identity.id] == found.value
        && SameCreation(found.value.identity, wanted)
        && forall id :: id in rows && SameCreation(rows[id].identity, wanted) ==> id == found.value.identity.id
      ensures found.None? ==> forall id :: id in rows ==> !SameCreation(rows[id].identity, wanted)
    {
      if id :| id in rows && SameCreation(rows[id].identity, wanted) {
        found := Some(rows[id]);
      } else {
        found := None;
      }
    }

    method FindByIdAndTenant(id: string, tenantId: string) returns (found: Option<Attempt>)
      ensures found == if id in rows && rows[id].identity.tenantId == tenantId then Some(rows[id]) else None
    {
      found := if id in rows && rows[id].identity.tenantId == tenantId then Some(rows[id]) else None;
    }

    /** One guarded UPDATE ... RETURNING. */
    method Update(id: string, tenantId: string, t: Transition) returns (updated: Option<Attempt>)
      requires Valid()
      modifies this
      ensures Valid()
      ensures updated.Some? <==> old(Owns(id, tenantId)) && Fires(old(rows)[id], t)
      ensures updated.Some? ==> updated.value == Written(old(rows)[id], t) && rows == old(rows)[id := updated.value]
      ensures updated.None? ==> rows == old(rows)
    {
      if id in rows && rows[id].identity.tenantId == tenantId && rows[id].state == SourceState(t) {
        updated := Some(Written(rows[id], t));
        rows := rows[id := updated.value];
      } else {
        updated := None;
      }
    }

    /**
     * A no-op beyond CREATED, and then the caller still gets the row, as `others`, the calls of
     * other callers between the UPDATE and the SELECT, have left it.
     */
    method TransitionToInProgress(id: string, tenantId: string, others: seq<Transition>)
      returns (current: Option<Attempt>)
      requires Valid()
      modifies this
      ensures Valid()
      ensures current.Some? <==> old(Owns(id, tenantId))
      ensures current.Some? ==>
        && current.value == (if Fires(old(rows)[id], ToInProgress) then Written(old(rows)[id], ToInProgress)
                             else ApplyAll(old(rows)[id], others))
        && current.value.state != Created
        && rows == old(rows)[id := current.value]
      ensures current.None? ==> rows == old(rows)
    {
      current := Update(id, tenantId, ToInProgress);
      if current.None? {
        if id in rows && rows[id].identity.tenantId == tenantId {
          LifeOnlyMovesForward(rows[id], others);
          rows := rows[id := ApplyAll(rows[id], others)];
        }
        current := FindByIdAndTenant(id, tenantId);
      }
    }

    method TransitionToCompletionSubmitted(id: string, tenantId: string, status: PendingStatus)
      returns (updated: Option<Attempt>)
      requires Valid()
      modifies this
      ensures Valid()
      ensures updated.Some? <==> old(Owns(id, tenantId)) && old(rows)[id].state == InProgress
      ensures updated.Some? ==>
        && updated.value == old(rows)[id].(state := CompletionSubmitted, completionStatus := Some(status))
        && rows == old(rows)[id := updated.value]
      ensures updated.None? ==> rows == old(rows)
    {
      updated := Update(id, tenantId, ToSubmitted(status));
    }

    method UpdatePendingCompletionStatus(id: string, tenantId: string, status: PendingStatus)
      returns (updated: Option<Attempt>)
      requires Valid()
      modifies this
      ensures Valid()
      ensures updated.Some? <==> old(Owns(id, tenantId)) && old(rows)[id].state == CompletionSubmitted
      ensures updated.Some? ==>
        && updated.value == old(rows)[id].(completionStatus := Some(status))
        && rows == old(rows)[id := updated.value]
      ensures updated.None? ==> rows == old(rows)
    {
      updated := Update(id, tenantId, UpdatePending(status));
    }

    method ConsolidateAttempt(id: string, tenantId: string, outcome: Outcome, now: int)
      returns (updated: Option<Attempt>)
      requires Valid()
      modifies this
      ensures Valid()
      ensures updated.Some? <==> old(Owns(id, tenantId)) && old(rows)[id].state == CompletionSubmitted
      ensures updated.Some? ==>
        && updated.value == old(rows)[id].(state := Completed, completionStatus := Some(Consolidated),
                                           completedAt := Some(now), outcome := Some(outcome))
        && rows == old(rows)[id := updated.value]
      ensures updated.None? ==> rows == old(rows)
    {
      updated := Update(id, tenantId, Consolidate(outcome, now));
    }
  }

  // ---------------------------------------------------------------- whole lives

  function ApplyAll(a: Attempt, ts: seq<Transition>): Attempt {
    if |ts| == 0 then a else Transitioned(ApplyAll(a, Front(ts)), Last(ts))
  }

  function Rank(s: AttemptState): nat {
    match s
    case Created => 0
    case InProgress => 1
    case CompletionSubmitted => 2
    case Completed => 3
    case Abandoned => 4
    case Expired => 4
  }

  /** How many of the calls that satisfy `kind` actually fired. */
  function Fired(a: Attempt, ts: seq<Transition>, kind: Transition -> bool): nat {
    if |ts| == 0 then 0
    else Fired(a, Front(ts), kind) + if kind(Last(ts)) && Fires(ApplyAll(a, Front(ts)), Last(ts)) then 1 else 0
  }

  /** The outcomes written by the calls that fired, in order. */
  function OutcomesWritten(a: Attempt, ts: seq<Transition>): seq<Outcome> {
    if |ts| == 0 then []
    else
      var earlier := OutcomesWritten(a, Front(ts));
      if Last(ts).Consolidate? && Fires(ApplyAll(a, Front(ts)), Last(ts)) then earlier + [Last(ts).outcome] else earlier
  }

  lemma {:induction false} ApplyAllConcat(a: Attempt, first: seq<Transition>, second: seq<Transition>)
    ensures ApplyAll(a, first + second) == ApplyAll(ApplyAll(a, first), second)
  {
    if |second| == 0 {
      assert first + second == first;
    } else {
      ApplyAllConcat(a, first, Front(second));
      assert Front(first + second) == first + Front(second);
    }
  }

  /**
   * Under any interleaving of lifecycle calls the state never moves backwards, the
   * table's CHECK is never violated, identity columns never change, and each step
   * of the life is taken at most once.
   */
  lemma {:induction false} LifeOnlyMovesForward(a: Attempt, ts: seq<Transition>)
    requires LifecycleCheck(a)
    ensures var b := ApplyAll(a, ts);
            && LifecycleCheck(b)
            && b.identity == a.identity
            && Rank(a.state) <= Rank(b.state)
            && (a.state in {Completed, Abandoned, Expired} ==> b == a)
            && Fired(a, ts, (t: Transition) => t.ToInProgress?) == (if a.state == Created && b.state != Created then 1 else 0)
            && Fired(a, ts, (t: Transition) => t.ToSubmitted?) ==
                 (if Rank(a.state) < 2 && Rank(b.state) >= 2 then 1 else 0)
  {
    if |ts| > 0 { LifeOnlyMovesForward(a, Front(ts)); }
  }

  /**
   * COMPLETED, CONSOLIDATED, an outcome and a completion time hold together or not
   * at all; the completion status is null exactly before submission; and at most
   * one outcome is ever written, the one the row shows.
   */
  lemma {:induction false} CompletionIsAllOrNothing(identity: Identity, ts: seq<Transition>)
    ensures var a := ApplyAll(NewAttempt(identity), ts);
            && (a.state == Completed <==> a.completionStatus == Some(Consolidated))
            && (a.state == Completed <==> a.outcome.Some?)
            && (a.state == Completed <==> a.completedAt.Some?)
            && (a.completionStatus.None? <==> a.state in {Created, InProgress})
            && OutcomesWritten(NewAttempt(identity), ts) == (if a.outcome.Some? then [a.outcome.value] else [])
  {
    if |ts| > 0 {
      CompletionIsAllOrNothing(identity, Front(ts));
      LifeOnlyMovesForward(NewAttempt(identity), Front(ts));
      LifeOnlyMovesForward(NewAttempt(identity), ts);
    }
    assert ApplyAll(NewAttempt(identity), ts).state !in {Abandoned, Expired} by { NeverAbandoned(identity, ts); }
  }

  lemma {:induction false} NeverAbandoned(identity: Identity, ts: seq<Transition>)
    ensures ApplyAll(NewAttempt(identity), ts).state !in {Abandoned, Expired}
  {
    if |ts| > 0 { NeverAbandoned(identity, Front(ts)); }
  }

  /** Once an outcome is there, nothing changes the attempt any more. */
  lemma OutcomeIsFinal(identity: Identity, ts: seq<Transition>, more: seq<Transition>)
    requires ApplyAll(NewAttempt(identity), ts).outcome.Some?
    ensures ApplyAll(NewAttempt(identity), ts + more) == ApplyAll(NewAttempt(identity), ts)
  {
    CompletionIsAllOrNothing(identity, ts);
    LifeOnlyMovesForward(NewAttempt(identity), ts);
    ApplyAllConcat(NewAttempt(identity), ts, more);
    LifeOnlyMovesForward(ApplyAll(NewAttempt(identity), ts), more);
  }

  /** Two identities clash exactly if they share the event, or tenant, assignment, student and creation key. */
  lemma ClashMeansSharedKey(a: Identity, b: Identity)
    ensures Clashes(a, b) <==>
      || a.eventId == b.eventId
      || (a.tenantId, a.assignmentId, a.studentProfileId, a.creationIdempotencyKey)
         == (b.tenantId, b.assignmentId, b.studentProfileId, b.creationIdempotencyKey)
  {
  }
}
