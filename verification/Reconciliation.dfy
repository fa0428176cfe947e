/** The cross-runtime verdict over all attempts of one student on one assignment, and how it ages. */
module Reconciliation {
  import opened Prelude
  import opened StableSorting
  import opened AttemptLifecycle

  datatype Resolution = NonePending | AutoResolvable | ReconciliationNeeded

  datatype AttemptSummary = AttemptSummary(
    attemptId: string,
    runtimeChannel: RuntimeChannel,
    attemptState: AttemptState,
    completionStatus: Option<CompletionStatus>)

  datatype Verdict = Verdict(
    concurrentAttempts: seq<AttemptSummary>,
    resolution: Resolution,
    prevailingAttemptId: Option<string>)

  datatype Scope = Scope(tenantId: string, assignmentId: string, studentProfileId: string)

  predicate InScope(a: Attempt, scope: Scope) {
    && a.identity.tenantId == scope.tenantId
    && a.identity.assignmentId == scope.assignmentId
    && a.identity.studentProfileId == scope.studentProfileId
  }

  predicate IsConsolidated(a: Attempt) {
    a.completionStatus == Some(Consolidated)
  }

  predicate IsPending(a: Attempt) {
    a.state == CompletionSubmitted || a.state == InProgress
  }

  function ToSummary(a: Attempt): AttemptSummary {
    AttemptSummary(a.identity.id, a.identity.runtimeChannel, a.state, a.completionStatus)
  }

  /** WHERE ... ORDER BY started_at ASC. */
  function FindConcurrent(table: seq<Attempt>, scope: Scope): seq<Attempt> {
    SortBy(Filter(table, (a: Attempt) => InScope(a, scope)), (a: Attempt) => a.identity.startedAt)
  }

  function Evaluate(all: seq<Attempt>): Verdict {
    var summaries := seq(|all|, i requires 0 <= i < |all| => ToSummary(all[i]));
    var consolidated := Filter(all, IsConsolidated);
    if |consolidated| >= 1 then
      if |consolidated| == 1 then Verdict(summaries, AutoResolvable, Some(consolidated[0].identity.id))
      else Verdict(summaries, ReconciliationNeeded, None)
    else if |Filter(all, IsPending)| <= 1 then Verdict(summaries, NonePending, None)
    else Verdict(summaries, ReconciliationNeeded, None)
  }

  /** The verdict does not depend on the order of the rows. */
  lemma VerdictIgnoresOrder(all: seq<Attempt>, other: seq<Attempt>)
    requires multiset(all) == multiset(other)
    ensures Evaluate(all).resolution == Evaluate(other).resolution
    ensures Evaluate(all).prevailingAttemptId == Evaluate(other).prevailingAttemptId
    ensures multiset(Evaluate(all).concurrentAttempts) == multiset(Evaluate(other).concurrentAttempts)
  {
    FilterOfPermutation(all, other, IsConsolidated);
    FilterOfPermutation(all, other, IsPending);
    SummariesOfPermutation(all, other);
  }

  /** Every attempt is reported as it is, in order. */
  lemma EveryAttemptIsReported(all: seq<Attempt>)
    ensures |Evaluate(all).concurrentAttempts| == |all|
    ensures forall i :: 0 <= i < |all| ==>
      var s := Evaluate(all).concurrentAttempts[i];
      && s.attemptId == all[i].identity.id && s.runtimeChannel == all[i].identity.runtimeChannel
      && s.attemptState == all[i].state && s.completionStatus == all[i].completionStatus
  {
  }

  /** The attempts evaluated are exactly the student's on the assignment in the tenant, the earliest started first. */
  lemma ConcurrentAreTheStudents(table: seq<Attempt>, scope: Scope, a: Attempt)
    ensures a in FindConcurrent(table, scope) <==>
      && a in table
      && a.identity.tenantId == scope.tenantId
      && a.identity.assignmentId == scope.assignmentId
      && a.identity.studentProfileId == scope.studentProfileId
    ensures forall i, j :: 0 <= i < j < |FindConcurrent(table, scope)| ==>
      FindConcurrent(table, scope)[i].identity.startedAt <= FindConcurrent(table, scope)[j].identity.startedAt
  {
    var started := (x: Attempt) => x.identity.startedAt;
    var mine := Filter(table, (x: Attempt) => InScope(x, scope));
    FilterMembers(table, (x: Attempt) => InScope(x, scope));
    SortIsOrderedPermutation(mine, started);
    assert FindConcurrent(table, scope) == SortBy(mine, started);
    forall i, j | 0 <= i < j < |SortBy(mine, started)|
      ensures SortBy(mine, started)[i].identity.startedAt <= SortBy(mine, started)[j].identity.startedAt
    {
      assert started(SortBy(mine, started)[i]) <= started(SortBy(mine, started)[j]);
    }
  }

  function IsUnderway(): Attempt -> bool {
    (a: Attempt) => a.state == InProgress || a.state == CompletionSubmitted
  }

  /**
   * The resolution by counts: one consolidated attempt resolves itself, more need reconciliation;
   * without any, more than one attempt in progress or submitted needs it, and fewer leave nothing pending.
   */
  lemma ResolutionIsByCounts(all: seq<Attempt>)
    ensures var consolidated, underway := Count(all, HasStatus(Consolidated)), Count(all, IsUnderway());
            Evaluate(all).resolution ==
              if consolidated == 1 then AutoResolvable
              else if consolidated > 1 || underway > 1 then ReconciliationNeeded
              else NonePending
  {
    CountIsFilterLength(all, IsConsolidated);
    CountAgrees(all, IsConsolidated, HasStatus(Consolidated));
    CountIsFilterLength(all, IsPending);
    CountAgrees(all, IsPending, IsUnderway());
  }

  function HasStatus(status: CompletionStatus): Attempt -> bool {
    (a: Attempt) => a.completionStatus == Some(status)
  }

  /** An attempt prevails exactly if it is the one, and only one, with a CONSOLIDATED status. */
  lemma OnlyConsolidatedPrevails(all: seq<Attempt>, id: string)
    ensures Evaluate(all).prevailingAttemptId == Some(id) <==>
      && Count(all, HasStatus(Consolidated)) == 1
      && exists a :: a in all && a.completionStatus == Some(Consolidated) && a.identity.id == id
    ensures Evaluate(all).prevailingAttemptId.Some? <==> Evaluate(all).resolution == AutoResolvable
  {
    var kept := Filter(all, IsConsolidated);
    CountIsFilterLength(all, IsConsolidated);
    CountAgrees(all, IsConsolidated, HasStatus(Consolidated));
    FilterMembers(all, IsConsolidated);
    if |kept| == 1 {
      assert kept[0] in kept;
      forall a | a in all && a.completionStatus == Some(Consolidated) ensures a == kept[0] {
        assert a in kept;
      }
    }
  }

  function Summaries(all: seq<Attempt>): seq<AttemptSummary> {
    if |all| == 0 then [] else Summaries(Front(all)) + [ToSummary(Last(all))]
  }

  lemma {:induction false} SummariesAreMapped(all: seq<Attempt>)
    ensures Evaluate(all).concurrentAttempts == Summaries(all)
  {
    if |all| > 0 { SummariesAreMapped(Front(all)); }
  }

  lemma {:induction false} SummariesWithout(all: seq<Attempt>, i: nat)
    requires i < |all|
    ensures multiset(Summaries(all)) == multiset(Summaries(all[..i] + all[i + 1..])) + multiset{ToSummary(all[i])}
  {
    var rest := all[..i] + all[i + 1..];
    if i == |all| - 1 {
      assert rest == Front(all);
    } else {
      SummariesWithout(Front(all), i);
      assert Front(rest) == Front(all)[..i] + Front(all)[i + 1..];
      assert Last(rest) == Last(all);
    }
  }

  lemma {:induction false} SummariesOfPermutation(all: seq<Attempt>, other: seq<Attempt>)
    requires multiset(all) == multiset(other)
    ensures multiset(Evaluate(all).concurrentAttempts) == multiset(Evaluate(other).concurrentAttempts)
  {
    SummariesAreMapped(all);
    SummariesAreMapped(other);
    MappedPermutation(all, other);
  }

  lemma {:induction false} MappedPermutation(all: seq<Attempt>, other: seq<Attempt>)
    requires multiset(all) == multiset(other)
    ensures multiset(Summaries(all)) == multiset(Summaries(other))
  {
    SameMembers(all, other);
    if |all| > 0 {
      var i := RemoveLast(all, other);
      MappedPermutation(Front(all), other[..i] + other[i + 1..]);
      SummariesWithout(other, i);
    }
  }

  // ---------------------------------------------------------------- over time

  datatype Change = Insert(identity: Identity) | Move(row: nat, transition: Transition)

  function Step(table: seq<Attempt>, c: Change): seq<Attempt> {
    match c
    case Insert(identity) => table + [NewAttempt(identity)]
    case Move(row, t) => if row < |table| then table[row := Transitioned(table[row], t)] else table
  }

  function Run(table: seq<Attempt>, changes: seq<Change>): seq<Attempt> {
    if |changes| == 0 then table else Step(Run(table, Front(changes)), Last(changes))
  }

  /** Rows stay, keep their identity, and freeze once consolidated. */
  ghost predicate Later(before: seq<Attempt>, after: seq<Attempt>) {
    && |before| <= |after|
    && forall i :: 0 <= i < |before| ==>
         && after[i].identity == before[i].identity
         && (IsConsolidated(before[i]) ==> after[i] == before[i])
  }

  ghost predicate AllChecked(table: seq<Attempt>) {
    forall i :: 0 <= i < |table| ==> LifecycleCheck(table[i])
  }

  lemma {:induction false} RunIsLater(table: seq<Attempt>, changes: seq<Change>)
    requires AllChecked(table)
    ensures AllChecked(Run(table, changes))
    ensures Later(table, Run(table, changes))
  {
    if |changes| > 0 { RunIsLater(table, Front(changes)); }
  }

  lemma {:induction false} FilteredIsLater(before: seq<Attempt>, after: seq<Attempt>, scope: Scope)
    requires Later(before, after)
    ensures Later(Filter(before, (a: Attempt) => InScope(a, scope)), Filter(after, (a: Attempt) => InScope(a, scope)))
  {
    var inScope := (a: Attempt) => InScope(a, scope);
    if |after| > |before| {
      FilteredIsLater(before, Front(after), scope);
      assert Filter(Front(after), inScope) <= Filter(after, inScope);
    } else if |before| > 0 {
      assert after[|after| - 1].identity == before[|before| - 1].identity;
      FilteredIsLater(Front(before), Front(after), scope);
      SameLengthFilter(Front(before), Front(after), scope);
    }
  }

  lemma {:induction false} SameLengthFilter(before: seq<Attempt>, after: seq<Attempt>, scope: Scope)
    requires Later(before, after) && |before| == |after|
    ensures |Filter(before, (a: Attempt) => InScope(a, scope))| == |Filter(after, (a: Attempt) => InScope(a, scope))|
  {
    if |before| > 0 {
      assert after[|after| - 1].identity == before[|before| - 1].identity;
      SameLengthFilter(Front(before), Front(after), scope);
    }
  }

  /** The consolidated attempts of an earlier moment are a subset of the later ones. */
  lemma {:induction false} ConsolidatedPersist(before: seq<Attempt>, after: seq<Attempt>)
    requires Later(before, after)
    ensures |Filter(before, IsConsolidated)| <= |Filter(after, IsConsolidated)|
    ensures |Filter(before, IsConsolidated)| == |Filter(after, IsConsolidated)| ==>
      Filter(before, IsConsolidated) == Filter(after, IsConsolidated)
  {
    if |after| > |before| {
      ConsolidatedPersist(before, Front(after));
    } else if |before| > 0 {
      ConsolidatedPersist(Front(before), Front(after));
      assert IsConsolidated(before[|before| - 1]) ==> after[|after| - 1] == before[|before| - 1];
    }
  }

  /**
   * The verdict is stable over any further changes: with a consolidated attempt it is
   * never NONE_PENDING again; two moments that name a prevailing attempt name the same
   * one; and from two consolidated attempts on it asks for reconciliation for ever.
   */
  lemma VerdictIsStable(table: seq<Attempt>, changes: seq<Change>, scope: Scope)
    requires AllChecked(table)
    ensures var now := Evaluate(FindConcurrent(table, scope));
            var then' := Evaluate(FindConcurrent(Run(table, changes), scope));
            var consolidated := |Filter(FindConcurrent(table, scope), IsConsolidated)|;
            && (consolidated >= 1 ==> then'.resolution != NonePending)
            && (now.prevailingAttemptId.Some? && then'.prevailingAttemptId.Some? ==>
                  now.prevailingAttemptId == then'.prevailingAttemptId)
            && (consolidated >= 2 ==> then'.resolution == ReconciliationNeeded && then'.prevailingAttemptId == None)
  {
    var inScope := (a: Attempt) => InScope(a, scope);
    var started := (a: Attempt) => a.identity.startedAt;
    RunIsLater(table, changes);
    var mine, later := Filter(table, inScope), Filter(Run(table, changes), inScope);
    FilteredIsLater(table, Run(table, changes), scope);
    ConsolidatedPersist(mine, later);
    SortPermutes(mine, started);
    SortPermutes(later, started);
    FilterOfPermutation(FindConcurrent(table, scope), mine, IsConsolidated);
    FilterOfPermutation(FindConcurrent(Run(table, changes), scope), later, IsConsolidated);
  }
}
