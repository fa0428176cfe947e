/** Driving single requests through the completion route, one statement at a time. */
module CompletionScenarios {
  import opened Prelude
  import opened StableSorting
  import IdempotencyRecord
  import opened AttemptLifecycle
  import opened EngineRuntime
  import opened ActionDelivery
  import Reconciliation
  import opened CompletionRoute
  import opened CompletionScores

  /** The same event again and again. */
  function Repeat(sys: System, e: Event, n: nat): System {
    if n == 0 then sys else Step(Repeat(sys, e, n - 1), e)
  }

  function Times(e: Event, n: nat): seq<Event> {
    seq(n, i => e)
  }

  lemma {:induction false} RunRepeats(sys: System, events: seq<Event>, e: Event, n: nat)
    ensures Run(sys, events + Times(e, n)) == Repeat(Run(sys, events), e, n)
  {
    if n == 0 {
      assert events + Times(e, n) == events;
    } else {
      RunRepeats(sys, events, e, n - 1);
      assert Front(events + Times(e, n)) == events + Times(e, n - 1);
    }
  }

  lemma RunOneMore(sys: System, events: seq<Event>, e: Event)
    ensures Run(sys, events + [e]) == Step(Run(sys, events), e)
  {
    assert Front(events + [e]) == events;
  }

  lemma TwoSteps(sys: System, e: Event)
    ensures Repeat(sys, e, 2) == Step(Step(sys, e), e)
  {
    assert Repeat(sys, e, 1) == Step(Repeat(sys, e, 0), e);
  }

  lemma ThreeSteps(sys: System, e: Event)
    ensures Repeat(sys, e, 3) == Step(Step(Step(sys, e), e), e)
  {
    TwoSteps(sys, e);
  }

  lemma {:induction false} RunContinues(sys: System, events: seq<Event>, more: seq<Event>)
    ensures Run(sys, events + more) == Run(Run(sys, events), more)
  {
    if |more| == 0 {
      assert events + more == events;
    } else {
      RunContinues(sys, events, Front(more));
      assert Front(events + more) == events + Front(more);
    }
  }

  function TurnAt(i: nat, now: int): Event {
    Turn(i, true, 0, "", now)
  }

  /** A turn of a statement that does not look at the clock, or at time zero. */
  function SomeTurn(i: nat): Event {
    TurnAt(i, 0)
  }

  /** Every other request is where it was; so is every other attempt, every other key, and the log. */
  ghost predicate LeavesOthers(sys: System, next: System, i: nat)
    requires i < |sys.requests|
  {
    && OnlyMoves(sys, next, i)
    && |next.attempts| == |sys.attempts|
    && (forall a :: 0 <= a < |sys.attempts| && a != sys.requests[i].attempt ==> next.attempts[a] == sys.attempts[a])
    && (forall k :: k != sys.requests[i].key && k !in sys.table ==> k !in next.table)
  }

  lemma LeavesTransitively(sys: System, mid: System, next: System, i: nat)
    requires i < |sys.requests| && LeavesOthers(sys, mid, i) && LeavesOthers(mid, next, i)
    requires IdentitiesFit(sys)
    ensures LeavesOthers(sys, next, i)
  {
  }

  // ---------------------------------------------------------------- one turn

  ghost predicate IsAt(sys: System, i: nat, p: Phase) {
    && i < |sys.requests| && sys.requests[i].phase == p
    && sys.requests[i].attempt < |sys.attempts|
    && IdentitiesFit(sys)
  }

  function AttemptOf(sys: System, i: nat): Attempt
    requires i < |sys.requests| && sys.requests[i].attempt < |sys.attempts|
  {
    sys.attempts[sys.requests[i].attempt]
  }

  lemma FindingTurn(sys: System, i: nat)
    requires IsAt(sys, i, Arrived) && AttemptOf(sys, i).state == InProgress
    ensures var next := Step(sys, SomeTurn(i));
            && IsAt(next, i, Found) && LeavesOthers(sys, next, i)
            && next.attempts == sys.attempts && next.table == sys.table
  {
    assert Step(sys, SomeTurn(i)) == SetPhase(sys, i, Found);
  }

  /** The claim holds of the whole log as it is now. */
  ghost predicate ClaimHoldsNow(sys: System, i: nat)
    requires i < |sys.requests| && sys.requests[i].attempt < |sys.attempts|
  {
    ClaimHolds(sys.requests[i].claim, AttemptOf(sys, i).identity, sys.log, |sys.log|)
  }

  lemma CheckingTurn(sys: System, i: nat)
    requires IsAt(sys, i, Found) && ClaimHoldsNow(sys, i)
    ensures var next := Step(sys, SomeTurn(i));
            && IsAt(next, i, Checked) && LeavesOthers(sys, next, i)
            && next.attempts == sys.attempts && next.table == sys.table
            && next.requests[i].readAt == |sys.log|
  {
    assert Step(sys, SomeTurn(i)) == SetPhase(Read(sys, i), i, Checked);
  }

  lemma GrantingTurn(sys: System, i: nat)
    requires IsAt(sys, i, Checked) && sys.requests[i].key !in sys.table
    ensures var r := sys.requests[i];
            var next := Step(sys, SomeTurn(i));
            && IsAt(next, i, Granted(IdempotencyRecord.INITIAL_GENERATION)) && LeavesOthers(sys, next, i)
            && next.attempts == sys.attempts
            && r.key in next.table
            && next.table[r.key] == IdempotencyRecord.Record(r.hash, IdempotencyRecord.Pending,
                                      IdempotencyRecord.INITIAL_GENERATION, None, None, 0)
  {
    assert Step(sys, SomeTurn(i)) == Upsert(sys, i, 0);
  }

  lemma JudgingTurn(sys: System, i: nat)
    requires i < |sys.requests| && sys.requests[i].phase.Granted? && IsAt(sys, i, sys.requests[i].phase)
    ensures var next := Step(sys, SomeTurn(i));
            && IsAt(next, i, Judged(sys.requests[i].phase.generation, StatusFor(sys.attempts, AttemptOf(sys, i))))
            && LeavesOthers(sys, next, i)
            && next.attempts == sys.attempts && next.table == sys.table
  {
  }

  lemma SubmittingTurn(sys: System, i: nat)
    requires i < |sys.requests| && sys.requests[i].phase.Judged? && IsAt(sys, i, sys.requests[i].phase)
    requires AttemptOf(sys, i).state == InProgress
    ensures var next := Step(sys, SomeTurn(i));
            && IsAt(next, i, SubmittedPhase(sys.requests[i].phase)) && LeavesOthers(sys, next, i)
            && next.table == sys.table
            && AttemptOf(next, i).state == CompletionSubmitted
  {
    assert Step(sys, SomeTurn(i)) == Submit(sys, i);
  }

  lemma ConsolidatingTurn(sys: System, i: nat)
    requires i < |sys.requests| && sys.requests[i].phase.Submitted? && IsAt(sys, i, sys.requests[i].phase)
    requires AttemptOf(sys, i).state == CompletionSubmitted
    ensures var r := sys.requests[i];
            var next := Step(sys, SomeTurn(i));
            && next.requests[i].phase.Replying? && next.requests[i].phase.generation == r.phase.generation
            && ClaimsConsolidation(next.requests[i].phase)
            && IsAt(next, i, next.requests[i].phase) && LeavesOthers(sys, next, i)
            && next.table == sys.table
            && AttemptOf(next, i).state == Completed
            && AttemptOf(next, i).completionStatus == Some(Consolidated)
  {
    var r := sys.requests[i];
    var outcome := ComputedOutcome(sys.setup, AttemptOf(sys, i).identity, sys.log, r.readAt, 0);
    assert Step(sys, SomeTurn(i)) == ConsolidateAttempt(sys, i, outcome, 0);
  }

  lemma RecordingTurn(sys: System, i: nat)
    requires i < |sys.requests| && sys.requests[i].phase.Replying? && IsAt(sys, i, sys.requests[i].phase)
    requires IdempotencyRecord.MayFinish(sys.table, sys.requests[i].key, sys.requests[i].phase.generation)
    ensures var k := sys.requests[i].key;
            var next := Step(sys, SomeTurn(i));
            && IsAt(next, i, Answered(sys.requests[i].phase.reply)) && LeavesOthers(sys, next, i)
            && next.attempts == sys.attempts
            && k in next.table && next.table[k].status == IdempotencyRecord.Completed
            && next.table[k].requestHash == sys.table[k].requestHash
  {
    assert Step(sys, SomeTurn(i)) ==
           FinishRequest(sys, i, IdempotencyRecord.CompleteWith(""), sys.requests[i].phase.reply, 0);
  }

  /** An error is recorded under the request's own generation, may be retried, and is stamped with the time. */
  lemma FailingTurn(sys: System, i: nat, now: int)
    requires i < |sys.requests| && sys.requests[i].phase.Failing? && IsAt(sys, i, sys.requests[i].phase)
    requires IdempotencyRecord.MayFinish(sys.table, sys.requests[i].key, sys.requests[i].phase.generation)
    ensures var r := sys.requests[i];
            var next := Step(sys, TurnAt(i, now));
            && IsAt(next, i, Answered(Fails)) && LeavesOthers(sys, next, i)
            && next.attempts == sys.attempts
            && r.key in next.table
            && var record := next.table[r.key];
               && record.status == IdempotencyRecord.Failed && record.failureRetryable == Some(true)
               && record.updatedAt == now
               && record.generation == r.phase.generation && record.requestHash == sys.table[r.key].requestHash
  {
    assert Step(sys, TurnAt(i, now)) == FinishRequest(sys, i, IdempotencyRecord.FailWith(true, ""), Fails, now);
  }

  /** More than the window after a retryable failure of the same request, the next generation is granted. */
  lemma RetryingTurn(sys: System, i: nat, now: int)
    requires IsAt(sys, i, Checked) && sys.requests[i].key in sys.table
    requires var record := sys.table[sys.requests[i].key];
             && record.status == IdempotencyRecord.Failed && record.failureRetryable == Some(true)
             && record.requestHash == sys.requests[i].hash
             && now > record.updatedAt + IdempotencyRecord.RETRY_WINDOW
    ensures var r := sys.requests[i];
            var g := sys.table[r.key].generation + 1;
            var next := Step(sys, TurnAt(i, now));
            && IsAt(next, i, Granted(g)) && LeavesOthers(sys, next, i)
            && next.attempts == sys.attempts
            && IdempotencyRecord.MayFinish(next.table, r.key, g)
  {
    assert Step(sys, TurnAt(i, now)) == Upsert(sys, i, now);
  }

  // ---------------------------------------------------------------- several turns

  ghost predicate ReadyToComplete(sys: System, i: nat) {
    IsAt(sys, i, Arrived) && AttemptOf(sys, i).state == InProgress && ClaimHoldsNow(sys, i)
  }

  /** Look up, read and check. */
  lemma FirstTurns(sys: System, i: nat)
    requires ReadyToComplete(sys, i)
    ensures var next := Repeat(sys, SomeTurn(i), 2);
            && IsAt(next, i, Checked) && LeavesOthers(sys, next, i)
            && next.attempts == sys.attempts && next.table == sys.table
            && next.requests[i].readAt == |sys.log|
  {
    TwoSteps(sys, SomeTurn(i));
    FindingTurn(sys, i);
    CheckingTurn(Step(sys, SomeTurn(i)), i);
    LeavesTransitively(sys, Step(sys, SomeTurn(i)), Repeat(sys, SomeTurn(i), 2), i);
  }

  /** Begin and judge. */
  lemma MiddleTurns(sys: System, i: nat)
    requires IsAt(sys, i, Checked) && sys.requests[i].key !in sys.table
    ensures var r := sys.requests[i];
            var next := Repeat(sys, SomeTurn(i), 2);
            && IsAt(next, i, Judged(IdempotencyRecord.INITIAL_GENERATION, StatusFor(sys.attempts, AttemptOf(sys, i))))
            && LeavesOthers(sys, next, i) && next.attempts == sys.attempts
            && next.requests[i].readAt == r.readAt
            && IdempotencyRecord.MayFinish(next.table, r.key, IdempotencyRecord.INITIAL_GENERATION)
            && next.table[r.key].requestHash == r.hash
  {
    TwoSteps(sys, SomeTurn(i));
    GrantingTurn(sys, i);
    JudgingTurn(Step(sys, SomeTurn(i)), i);
    LeavesTransitively(sys, Step(sys, SomeTurn(i)), Repeat(sys, SomeTurn(i), 2), i);
  }

  /** The answer of request `i` is recorded under its key. */
  ghost predicate IsRecorded(sys: System, next: System, i: nat)
    requires i < |sys.requests| && sys.requests[i].key in sys.table
  {
    var k := sys.requests[i].key;
    && LeavesOthers(sys, next, i) && next.requests[i].phase.Answered?
    && IsAt(next, i, next.requests[i].phase)
    && k in next.table && next.table[k].status == IdempotencyRecord.Completed
    && next.table[k].requestHash == sys.table[k].requestHash
  }

  /** After a submission that consolidates: two turns more. */
  lemma ConsolidatingEnd(sys: System, i: nat)
    requires i < |sys.requests| && sys.requests[i].phase.Submitted? && IsAt(sys, i, sys.requests[i].phase)
    requires AttemptOf(sys, i).state == CompletionSubmitted
    requires IdempotencyRecord.MayFinish(sys.table, sys.requests[i].key, sys.requests[i].phase.generation)
    ensures var next := Step(Step(sys, SomeTurn(i)), SomeTurn(i));
            && IsRecorded(sys, next, i)
            && AttemptOf(next, i).state == Completed
            && AttemptOf(next, i).completionStatus == Some(Consolidated)
  {
    ConsolidatingTurn(sys, i);
    RecordingTurn(Step(sys, SomeTurn(i)), i);
    LeavesTransitively(sys, Step(sys, SomeTurn(i)), Step(Step(sys, SomeTurn(i)), SomeTurn(i)), i);
  }

  /** After a submission that needs reconciliation: one turn more, and an idle one. */
  lemma ReconcilingEnd(sys: System, i: nat)
    requires i < |sys.requests| && sys.requests[i].phase.Replying? && IsAt(sys, i, sys.requests[i].phase)
    requires IdempotencyRecord.MayFinish(sys.table, sys.requests[i].key, sys.requests[i].phase.generation)
    ensures IsRecorded(sys, Step(Step(sys, SomeTurn(i)), SomeTurn(i)), i)
  {
    RecordingTurn(sys, i);
    var recorded := Step(sys, SomeTurn(i));
    assert Step(recorded, SomeTurn(i)) == recorded;
  }

  /** Submit, consolidate unless reconciling, record. */
  lemma LastTurns(sys: System, i: nat)
    requires i < |sys.requests| && sys.requests[i].phase.Judged? && IsAt(sys, i, sys.requests[i].phase)
    requires AttemptOf(sys, i).state == InProgress
    requires IdempotencyRecord.MayFinish(sys.table, sys.requests[i].key, sys.requests[i].phase.generation)
    ensures var next := Repeat(sys, SomeTurn(i), 3);
            && IsRecorded(sys, next, i)
            && (sys.requests[i].phase.status == AcceptedNotConsolidated ==>
                  AttemptOf(next, i).state == Completed
                  && AttemptOf(next, i).completionStatus == Some(Consolidated))
  {
    ThreeSteps(sys, SomeTurn(i));
    SubmittingTurn(sys, i);
    var submitted := Step(sys, SomeTurn(i));
    if sys.requests[i].phase.status == AcceptedNotConsolidated {
      ConsolidatingEnd(submitted, i);
    } else {
      ReconcilingEnd(submitted, i);
    }
    LeavesTransitively(sys, submitted, Repeat(sys, SomeTurn(i), 3), i);
  }

  /** All seven turns of a request with a new key. */
  lemma CompletingRun(sys: System, events: seq<Event>, i: nat) returns (more: seq<Event>)
    requires ReadyToComplete(Run(sys, events), i) && Run(sys, events).requests[i].key !in Run(sys, events).table
    ensures var before, after := Run(sys, events), Run(sys, more);
            var r := before.requests[i];
            && LeavesOthers(before, after, i) && IsAt(after, i, after.requests[i].phase)
            && r.key in after.table && after.table[r.key].status == IdempotencyRecord.Completed
            && after.table[r.key].requestHash == r.hash
            && (StatusFor(before.attempts, AttemptOf(before, i)) == AcceptedNotConsolidated ==>
                  && AttemptOf(after, i).state == Completed
                  && AttemptOf(after, i).completionStatus == Some(Consolidated))
  {
    var t := SomeTurn(i);
    var before := Run(sys, events);
    var checked := events + Times(t, 2);
    RunRepeats(sys, events, t, 2);
    FirstTurns(before, i);
    var judged := checked + Times(t, 2);
    RunRepeats(sys, checked, t, 2);
    MiddleTurns(Run(sys, checked), i);
    more := judged + Times(t, 3);
    RunRepeats(sys, judged, t, 3);
    LastTurns(Run(sys, judged), i);
    LeavesTransitively(before, Run(sys, checked), Run(sys, judged), i);
    LeavesTransitively(before, Run(sys, judged), Run(sys, more), i);
  }

  // ---------------------------------------------------------------- preparing attempts

  lemma {:induction false} AttemptsAreCreated(sys: System, n: nat)
    requires |sys.attempts| + n <= |sys.setup.attempts|
    ensures var next := Repeat(sys, CreateAttempt, n);
            && next == sys.(attempts := next.attempts)
            && |next.attempts| == |sys.attempts| + n
            && forall a :: |sys.attempts| <= a < |next.attempts| ==> next.attempts[a] == NewAttempt(sys.setup.attempts[a])
  {
    if n > 0 { AttemptsAreCreated(sys, n - 1); }
  }

  /** The database never gives two attempts one id. */
  ghost predicate DistinctIds(setup: Setup) {
    forall a, b :: 0 <= a < b < |setup.attempts| ==> setup.attempts[a].id != setup.attempts[b].id
  }

  /** A run that creates every attempt and nothing else. */
  lemma AllCreated(setup: Setup, calls: seq<Call>) returns (events: seq<Event>)
    ensures var start := Initial(setup, calls);
            var sys := Run(start, events);
            && sys == start.(attempts := sys.attempts)
            && |sys.attempts| == |setup.attempts|
            && forall a :: 0 <= a < |sys.attempts| ==> sys.attempts[a] == NewAttempt(setup.attempts[a])
  {
    var n := |setup.attempts|;
    events := Times(CreateAttempt, n);
    RunRepeats(Initial(setup, calls), [], CreateAttempt, n);
    assert [] + events == events;
    AttemptsAreCreated(Initial(setup, calls), n);
  }

  function EntryFor(identity: Identity, actionId: string, clientSequence: nat): LogEntry<SemanticAction> {
    LogEntry(identity.tenantId, identity.id, actionId, clientSequence, 0, SemanticAction("CONFIRM_SOLUTION", None, ""))
  }

  /** A sequence number that satisfies the claim. */
  function Claimed(claim: Option<int>): nat {
    if claim.Some? then Max(0, claim.value) else 0
  }

  /** The attempt's first action, which the claim of request `i` names. */
  function FirstEntry(sys: System, i: nat): LogEntry<SemanticAction>
    requires i < |sys.requests| && sys.requests[i].attempt < |sys.attempts|
  {
    EntryFor(AttemptOf(sys, i).identity, "first", Claimed(sys.requests[i].claim))
  }

  predicate NothingLogged(log: seq<LogEntry<SemanticAction>>, attemptId: string) {
    forall p :: 0 <= p < |log| ==> log[p].attemptId != attemptId
  }

  lemma EntrySatisfiesClaim(log: seq<LogEntry<SemanticAction>>, identity: Identity, actionId: string,
                            claim: Option<int>)
    requires NothingLogged(log, identity.id)
    ensures var e := EntryFor(identity, actionId, Claimed(claim));
            MayInsert(log, e) && ClaimHolds(claim, identity, log + [e], |log| + 1)
  {
    var e := EntryFor(identity, actionId, Claimed(claim));
    var own := OfAttempt(log + [e], identity.id, identity.tenantId);
    assert (log + [e])[..|log| + 1] == log + [e];
    assert Front(log + [e]) == log && Last(log + [e]) == e;
    assert e in own;
    ReadHolds(log + [e], identity, e);
    var read := ReadLog(log + [e], identity.id, identity.tenantId);
    var k :| 0 <= k < |read| && read[k] == e;
  }

  lemma ReadHolds(log: seq<LogEntry<SemanticAction>>, identity: Identity, e: LogEntry<SemanticAction>)
    requires e in OfAttempt(log, identity.id, identity.tenantId)
    ensures e in ReadLog(log, identity.id, identity.tenantId)
  {
    SortIsOrderedPermutation(OfAttempt(log, identity.id, identity.tenantId), Sequence<SemanticAction>());
  }

  /** First action, logged: the attempt is in progress and the claim of its request holds. */
  lemma Prepare(sys: System, events: seq<Event>, i: nat) returns (more: seq<Event>)
    requires var s := Run(sys, events);
             && IsAt(s, i, Arrived) && AttemptOf(s, i).state == Created
             && NothingLogged(s.log, AttemptOf(s, i).identity.id)
    ensures var before, after := Run(sys, events), Run(sys, more);
            && ReadyToComplete(after, i)
            && after == before.(attempts := before.attempts[before.requests[i].attempt :=
                                              Written(AttemptOf(before, i), ToInProgress)],
                                log := before.log + [FirstEntry(before, i)])
  {
    var before := Run(sys, events);
    var started := events + [FirstAction(before.requests[i].attempt)];
    RunOneMore(sys, events, FirstAction(before.requests[i].attempt));
    var entry := FirstEntry(before, i);
    EntrySatisfiesClaim(before.log, AttemptOf(before, i).identity, "first", before.requests[i].claim);
    more := started + [LogAction(entry)];
    RunOneMore(sys, started, LogAction(entry));
  }

  /** Logging for other attempts does not change what a claim is checked against. */
  lemma ClaimSurvives(log: seq<LogEntry<SemanticAction>>, e: LogEntry<SemanticAction>, claim: Option<int>, identity: Identity)
    requires e.attemptId != identity.id
    ensures ClaimHolds(claim, identity, log + [e], |log| + 1) == ClaimHolds(claim, identity, log, |log|)
  {
    assert (log + [e])[..|log| + 1] == log + [e] && log[..|log|] == log;
    assert Front(log + [e]) == log && Last(log + [e]) == e;
  }

  // ---------------------------------------------------------------- which verdicts let a request through

  /** Attempts of the scope of `a` that satisfy `kind`. */
  function InScopeCount(attempts: seq<Attempt>, a: Attempt, kind: Attempt -> bool): nat {
    Count(attempts, (x: Attempt) => Reconciliation.InScope(x, ScopeOf(a)) && kind(x))
  }

  lemma {:induction false} FilteredTwice(table: seq<Attempt>, p: Attempt -> bool, q: Attempt -> bool)
    ensures |Filter(Filter(table, p), q)| == Count(table, (x: Attempt) => p(x) && q(x))
  {
    if |table| > 0 {
      FilteredTwice(Front(table), p, q);
      var front := Filter(Front(table), p);
      if p(Last(table)) {
        assert Front(front + [Last(table)]) == front;
      }
    }
  }

  lemma ConcurrentCount(attempts: seq<Attempt>, a: Attempt, kind: Attempt -> bool)
    ensures |Filter(Reconciliation.FindConcurrent(attempts, ScopeOf(a)), kind)| == InScopeCount(attempts, a, kind)
  {
    var scope := ScopeOf(a);
    var inScope := (x: Attempt) => Reconciliation.InScope(x, scope);
    var mine := Filter(attempts, inScope);
    SortPermutes(mine, (x: Attempt) => x.identity.startedAt);
    FilterOfPermutation(Reconciliation.FindConcurrent(attempts, scope), mine, kind);
    FilteredTwice(attempts, inScope, kind);
    CountAgrees(attempts, (x: Attempt) => inScope(x) && kind(x),
                (x: Attempt) => Reconciliation.InScope(x, ScopeOf(a)) && kind(x));
  }

  /**
   * A request goes on to consolidate exactly when one attempt of the student on the assignment is
   * consolidated already, or none is and at most one is pending.
   */
  lemma LetThroughIff(attempts: seq<Attempt>, a: Attempt)
    ensures StatusFor(attempts, a) == AcceptedNotConsolidated <==>
      var consolidated := InScopeCount(attempts, a, Reconciliation.IsConsolidated);
      consolidated == 1
      || (consolidated == 0 && InScopeCount(attempts, a, Reconciliation.IsPending) <= 1)
  {
    ConcurrentCount(attempts, a, Reconciliation.IsConsolidated);
    ConcurrentCount(attempts, a, Reconciliation.IsPending);
  }

  lemma InScopeAtMostOne(attempts: seq<Attempt>, a: Attempt, kind: Attempt -> bool)
    requires forall i, j :: 0 <= i < j < |attempts| ==> !(kind(attempts[i]) && kind(attempts[j]))
    ensures InScopeCount(attempts, a, kind) <= 1
  {
    CountAtMostOne(attempts, (x: Attempt) => Reconciliation.InScope(x, ScopeOf(a)) && kind(x));
  }

  /** With no rival pending and at most one attempt consolidated, a request is let through. */
  lemma AloneIsLetThrough(attempts: seq<Attempt>, a: nat)
    requires a < |attempts|
    requires forall c :: 0 <= c < |attempts| && c != a ==> !Reconciliation.IsPending(attempts[c])
    requires forall c, d :: 0 <= c < d < |attempts| ==>
      !(Reconciliation.IsConsolidated(attempts[c]) && Reconciliation.IsConsolidated(attempts[d]))
    ensures StatusFor(attempts, attempts[a]) == AcceptedNotConsolidated
  {
    LetThroughIff(attempts, attempts[a]);
    InScopeAtMostOne(attempts, attempts[a], Reconciliation.IsConsolidated);
    InScopeAtMostOne(attempts, attempts[a], Reconciliation.IsPending);
  }
}
