/** What competing completion requests leave behind: misleading duplicates, stuck attempts, second consolidations. */
module CompletionProperties {
  import opened Prelude
  import IdempotencyRecord
  import opened AttemptLifecycle
  import opened EngineRuntime
  import opened ActionDelivery
  import Reconciliation
  import opened CompletionRoute
  import opened CompletionScores
  import opened CompletionScenarios

  // ---------------------------------------------------------------- what a duplicate means

  ghost predicate DuplicatesAreHonest(sys: System) {
    forall i :: 0 <= i < |sys.requests| && sys.requests[i].phase == Answered(Duplicate) ==>
      IsSubmitted(sys, sys.requests[i].attempt)
  }

  /** Two calls for attempts that can exist, with the same key and the same payload. */
  predicate SameKeyAndPayload(setup: Setup, x: Call, y: Call) {
    && x.attempt < |setup.attempts| && y.attempt < |setup.attempts|
    && KeyFor(setup, x) == KeyFor(setup, y) && x.hash == y.hash
  }

  ghost predicate KeysAreNotShared(setup: Setup, calls: seq<Call>) {
    forall i, j :: 0 <= i < |calls| && 0 <= j < |calls| && SameKeyAndPayload(setup, calls[i], calls[j]) ==>
      calls[i].attempt == calls[j].attempt
  }

  lemma UnsharedKeysAreHonest(setup: Setup, calls: seq<Call>, events: seq<Event>)
    requires KeysAreNotShared(setup, calls)
    ensures DuplicatesAreHonest(Run(Initial(setup, calls), events))
  {
    var sys := Run(Initial(setup, calls), events);
    RunKeepsRequests(setup, calls, events);
    EveryRunIsGood(setup, calls, events);
    forall i | 0 <= i < |sys.requests| && sys.requests[i].phase == Answered(Duplicate)
      ensures IsSubmitted(sys, sys.requests[i].attempt)
    {
      var original := DuplicateHasOriginal(setup, calls, events, i);
      assert AttemptFits(sys.attempts, sys.submitter, i, sys.requests[i]);
      assert SameKeyAndPayload(setup, calls[original], calls[i]);
    }
  }

  /** Its key is completed already, for the same payload. */
  ghost predicate IsTaken(sys: System, r: Request) {
    && r.key in sys.table && sys.table[r.key].status == IdempotencyRecord.Completed
    && sys.table[r.key].requestHash == r.hash
  }

  lemma TakenKeyIsNotGranted(sys: System, j: nat)
    requires IsAt(sys, j, Checked) && IsTaken(sys, sys.requests[j])
    ensures Step(sys, SomeTurn(j)) == SetPhase(sys, j, Classifying)
  {
    assert Step(sys, SomeTurn(j)) == Upsert(sys, j, 0);
  }

  lemma TakenKeyIsDuplicate(sys: System, j: nat)
    requires IsAt(sys, j, Classifying) && IsTaken(sys, sys.requests[j])
    ensures Step(sys, SomeTurn(j)) == SetPhase(sys, j, Answered(Duplicate))
  {
    var r := sys.requests[j];
    assert Step(sys, SomeTurn(j)) ==
           SetPhase(sys, j, Answered(ReplyTo(IdempotencyRecord.Classify(sys.table, r.key, r.hash, 0))));
  }

  /** A second request with the same key and payload is told that it is a duplicate. */
  lemma SharedKeyAnswersDuplicate(sys: System, j: nat)
    requires IsAt(sys, j, Checked) && IsTaken(sys, sys.requests[j])
    ensures var next := Repeat(sys, SomeTurn(j), 2);
            next.attempts == sys.attempts && IsAt(next, j, Answered(Duplicate))
            && next.requests[j].attempt == sys.requests[j].attempt
  {
    TwoSteps(sys, SomeTurn(j));
    TakenKeyIsNotGranted(sys, j);
    var classifying := SetPhase(sys, j, Classifying);
    TakenKeyIsDuplicate(classifying, j);
  }

  /** A prepared request stays prepared while another attempt takes its first action. */
  lemma ReadySurvivesPreparing(sys: System, next: System, i: nat, j: nat)
    requires ReadyToComplete(sys, i) && IdentitiesFit(next)
    requires j < |sys.requests| && sys.requests[j].attempt < |sys.attempts|
    requires sys.requests[j].attempt != sys.requests[i].attempt
    requires AttemptOf(sys, j).identity.id != AttemptOf(sys, i).identity.id
    requires next == sys.(attempts := next.attempts, log := sys.log + [FirstEntry(sys, j)])
    requires |next.attempts| == |sys.attempts|
    requires next.attempts[sys.requests[i].attempt] == sys.attempts[sys.requests[i].attempt]
    ensures ReadyToComplete(next, i)
  {
    ClaimSurvives(sys.log, FirstEntry(sys, j), sys.requests[i].claim, AttemptOf(sys, i).identity);
  }

  /** A prepared request stays prepared while another one moves. */
  lemma ReadySurvivesTurns(sys: System, next: System, i: nat, j: nat)
    requires ReadyToComplete(sys, j) && i < |sys.requests| && i != j
    requires LeavesOthers(sys, next, i) && sys.requests[i].attempt != sys.requests[j].attempt
    ensures ReadyToComplete(next, j) && AttemptOf(next, j) == AttemptOf(sys, j)
  {
  }

  /** Two prepared requests for different attempts. */
  lemma PrepareBoth(setup: Setup, calls: seq<Call>, i: nat, j: nat) returns (events: seq<Event>)
    requires i < |calls| && calls[i].attempt < |setup.attempts|
    requires j < |calls| && calls[j].attempt < |setup.attempts|
    requires calls[i].attempt != calls[j].attempt && DistinctIds(setup)
    ensures var sys := Run(Initial(setup, calls), events);
            && ReadyToComplete(sys, i) && ReadyToComplete(sys, j)
            && sys.table == map[] && sys.requests == Initial(setup, calls).requests
  {
    var start := Initial(setup, calls);
    var created := AllCreated(setup, calls);
    var first := Prepare(start, created, i);
    var s1 := Run(start, first);
    assert AttemptOf(s1, i).identity.id != AttemptOf(s1, j).identity.id;
    events := Prepare(start, first, j);
    ReadySurvivesPreparing(s1, Run(start, events), i, j);
  }

  /** A prepared request whose key is taken runs into its DUPLICATE answer. */
  lemma RunsIntoDuplicate(start: System, events: seq<Event>, j: nat) returns (more: seq<Event>)
    requires ReadyToComplete(Run(start, events), j) && IsTaken(Run(start, events), Run(start, events).requests[j])
    ensures var before, after := Run(start, events), Run(start, more);
            after.attempts == before.attempts && IsAt(after, j, Answered(Duplicate))
            && after.requests[j].attempt == before.requests[j].attempt
  {
    var checked := events + Times(SomeTurn(j), 2);
    RunRepeats(start, events, SomeTurn(j), 2);
    FirstTurns(Run(start, events), j);
    more := checked + Times(SomeTurn(j), 2);
    RunRepeats(start, checked, SomeTurn(j), 2);
    SharedKeyAnswersDuplicate(Run(start, checked), j);
  }

  /** Two calls sharing key and payload: a run in which the second attempt is a "duplicate" though nobody submitted it. */
  lemma SharedKeyMisleads(setup: Setup, calls: seq<Call>, i: nat, j: nat) returns (events: seq<Event>)
    requires DistinctIds(setup)
    requires i < |calls| && j < |calls| && SameKeyAndPayload(setup, calls[i], calls[j])
    requires calls[i].attempt != calls[j].attempt
    ensures !DuplicatesAreHonest(Run(Initial(setup, calls), events))
  {
    var start := Initial(setup, calls);
    var prepared := PrepareBoth(setup, calls, i, j);
    var completed := CompletingRun(start, prepared, i);
    ReadySurvivesTurns(Run(start, prepared), Run(start, completed), i, j);
    events := RunsIntoDuplicate(start, completed, j);
    var s := Run(start, events);
    assert s.requests[j].phase == Answered(Duplicate) && !IsSubmitted(s, s.requests[j].attempt);
  }

  /**
   * "Duplicate" means that the request's own attempt has been submitted, in every run, exactly
   * when no key and payload are shared between attempts. The key is built from tenant,
   * assignment, student and header only, and the hash from the body only, so a header used
   * for two attempts at one assignment shares them.
   */
  lemma DuplicatesAreHonestIffKeysAreNotShared(setup: Setup, calls: seq<Call>)
    requires DistinctIds(setup)
    ensures KeysAreNotShared(setup, calls) <==> forall events :: DuplicatesAreHonest(Run(Initial(setup, calls), events))
  {
    if KeysAreNotShared(setup, calls) {
      forall events ensures DuplicatesAreHonest(Run(Initial(setup, calls), events)) {
        UnsharedKeysAreHonest(setup, calls, events);
      }
    } else {
      var i, j :| 0 <= i < |calls| && 0 <= j < |calls| && SameKeyAndPayload(setup, calls[i], calls[j])
                  && calls[i].attempt != calls[j].attempt;
      var events := SharedKeyMisleads(setup, calls, i, j);
    }
  }

  // ---------------------------------------------------------------- admission and answers

  /** The lookup admits a request exactly for the student's own attempt in progress or submitted. */
  lemma LookupAdmits(sys: System, i: nat, e: Event)
    requires i < |sys.requests| && sys.requests[i].phase.Arrived? && e.Turn? && e.request == i
    ensures var r := Step(sys, e).requests[i];
            && (r.phase == Found <==>
                  && e.owned && r.attempt < |sys.attempts|
                  && (sys.attempts[r.attempt].state == InProgress || sys.attempts[r.attempt].state == CompletionSubmitted))
            && (r.phase != Found ==> r.phase == Answered(Refused))
  {
    assert Step(sys, e) == Find(sys, i, e.owned);
  }

  /** The claim check admits a request exactly if it claims nothing, or an action at least as late is in the log. */
  lemma ReadingAdmits(sys: System, i: nat, e: Event)
    requires i < |sys.requests| && sys.requests[i].phase.Found? && e.Turn? && e.request == i
    requires UniqueEntries(sys.log) && sys.requests[i].attempt < |sys.attempts|
    ensures var r := Step(sys, e).requests[i];
            var id := sys.attempts[r.attempt].identity;
            && (r.phase == Checked <==>
                  || r.claim.None? || r.claim.value < 0
                  || exists entry :: && entry in sys.log && entry.attemptId == id.id && entry.tenantId == id.tenantId
                                     && entry.clientSequence >= r.claim.value)
            && (r.phase != Checked ==> r.phase == Answered(Refused))
  {
    assert Step(sys, e) == Check(sys, i);
    var r := sys.requests[i];
    var id := sys.attempts[r.attempt].identity;
    assert sys.log[..|sys.log|] == sys.log;
    var read := ReadLog(sys.log, id.id, id.tenantId);
    ReadLogIsExact(sys.log, id.id, id.tenantId);
    ClaimIsReachedIff(read, r.claim);
    assert forall entry :: entry in read <==> entry in sys.log && entry.attemptId == id.id && entry.tenantId == id.tenantId;
  }

  lemma ClassifyingTurn(sys: System, e: Event)
    requires NothingIsTerminal(sys) && e.Turn? && e.request < |sys.requests|
    requires sys.requests[e.request].phase.Classifying? && sys.requests[e.request].key in sys.table
    ensures var r := sys.requests[e.request];
            var record := sys.table[r.key];
            Step(sys, e).requests[e.request].phase == Answered(
              if record.requestHash != r.hash then Conflict
              else if record.status == IdempotencyRecord.Completed then Duplicate
              else TooSoon)
  {
    var r := sys.requests[e.request];
    assert Step(sys, e) == SetPhase(sys, e.request,
      Answered(ReplyTo(IdempotencyRecord.Classify(sys.table, r.key, r.hash, e.now))));
  }

  /** A request that was granted nothing is answered by what the record says of its payload; never as a terminal failure. */
  lemma AnswersFollowTheRecord(setup: Setup, calls: seq<Call>, events: seq<Event>, e: Event)
    requires var sys := Run(Initial(setup, calls), events);
             e.Turn? && e.request < |sys.requests| && sys.requests[e.request].phase.Classifying?
    ensures var sys := Run(Initial(setup, calls), events);
            var r := sys.requests[e.request];
            && r.key in sys.table
            && var record := sys.table[r.key];
               Step(sys, e).requests[e.request].phase == Answered(
                 if record.requestHash != r.hash then Conflict
                 else if record.status == IdempotencyRecord.Completed then Duplicate
                 else TooSoon)
  {
    NeverTerminal(setup, calls, events);
    EveryRunIsGood(setup, calls, events);
    var sys := Run(Initial(setup, calls), events);
    assert KeyFits(sys.table, sys.recorded, sys.requests[e.request]);
    ClassifyingTurn(sys, e);
  }

  // ---------------------------------------------------------------- failures may be retried

  ghost predicate FailuresMayBeRetried(table: IdempotencyRecord.Table) {
    forall k :: k in table && table[k].status == IdempotencyRecord.Failed ==> table[k].failureRetryable == Some(true)
  }

  /** No failure is terminal, and nobody is told that one is. */
  ghost predicate NothingIsTerminal(sys: System) {
    && FailuresMayBeRetried(sys.table)
    && forall i :: 0 <= i < |sys.requests| ==> sys.requests[i].phase != Answered(Terminal)
  }

  lemma FinishKeepsNothingTerminal(sys: System, i: nat, f: IdempotencyRecord.Finish, reply: Reply, now: int)
    requires NothingIsTerminal(sys) && i < |sys.requests| && Holds(sys.requests[i])
    requires reply != Terminal && (f.FailWith? ==> f.retryable)
    ensures NothingIsTerminal(FinishRequest(sys, i, f, reply, now))
  {
  }

  /** Turns that leave the records alone, or grant, and do not answer. */
  lemma QuietKeepsNothingTerminal(sys: System, next: System, i: nat)
    requires NothingIsTerminal(sys) && i < |sys.requests| && OnlyMoves(sys, next, i)
    requires FailuresMayBeRetried(next.table) && next.requests[i].phase != Answered(Terminal)
    ensures NothingIsTerminal(next)
  {
  }

  lemma ClassifyKeepsNothingTerminal(sys: System, i: nat, now: int)
    requires Good(sys) && NothingIsTerminal(sys) && i < |sys.requests| && sys.requests[i].phase.Classifying?
    ensures var r := sys.requests[i];
            NothingIsTerminal(SetPhase(sys, i, Answered(ReplyTo(IdempotencyRecord.Classify(sys.table, r.key, r.hash, now)))))
  {
    assert KeyFits(sys.table, sys.recorded, sys.requests[i]);
  }

  lemma UpsertKeepsNothingTerminal(sys: System, i: nat, now: int)
    requires NothingIsTerminal(sys) && i < |sys.requests|
    ensures NothingIsTerminal(Upsert(sys, i, now))
  {
    QuietKeepsNothingTerminal(sys, Upsert(sys, i, now), i);
  }

  /** Turns of the other phases record nothing, and answer nothing but a refusal. */
  lemma OtherTurnsRecordNothing(sys: System, e: Event)
    requires e.Turn? && e.request < |sys.requests|
    requires var p := sys.requests[e.request].phase;
             p.Arrived? || p.Found? || p.Granted? || p.Judged? || p.Submitted? || p.Rereading?
    ensures TakeTurn(sys, e).table == sys.table
    ensures TakeTurn(sys, e).requests[e.request].phase != Answered(Terminal)
  {
    var i, r := e.request, sys.requests[e.request];
    match r.phase {
      case Arrived => assert TakeTurn(sys, e) == Find(sys, i, e.owned);
      case Found => assert TakeTurn(sys, e) == Check(sys, i);
      case Judged(_, _) => assert TakeTurn(sys, e) == Submit(sys, i);
      case Rereading(_) => assert TakeTurn(sys, e) == Reread(sys, i);
      case Submitted(_) =>
        if r.attempt < |sys.attempts| {
          var outcome := ComputedOutcome(sys.setup, sys.attempts[r.attempt].identity, sys.log, r.readAt, e.clock);
          assert TakeTurn(sys, e) == ConsolidateAttempt(sys, i, outcome, e.now);
        }
      case _ =>
    }
  }

  lemma TurnKeepsNothingTerminal(sys: System, e: Event)
    requires Good(sys) && NothingIsTerminal(sys) && e.Turn? && e.request < |sys.requests|
    ensures NothingIsTerminal(TakeTurn(sys, e))
  {
    var i, r := e.request, sys.requests[e.request];
    assert AttemptFits(sys.attempts, sys.submitter, i, r);
    match r.phase {
      case Checked => UpsertKeepsNothingTerminal(sys, i, e.now);
      case Classifying => ClassifyKeepsNothingTerminal(sys, i, e.now);
      case Replying(_, reply) => FinishKeepsNothingTerminal(sys, i, IdempotencyRecord.CompleteWith(e.text), reply, e.now);
      case Failing(_) => FinishKeepsNothingTerminal(sys, i, IdempotencyRecord.FailWith(true, e.text), Fails, e.now);
      case Answered(_) =>
      case Rereading(_) =>
      case _ =>
        OtherTurnsRecordNothing(sys, e);
        QuietKeepsNothingTerminal(sys, TakeTurn(sys, e), i);
    }
  }

  lemma OtherEventsRecordNothing(sys: System, e: Event)
    requires !e.Turn?
    ensures var next := Step(sys, e);
            && next.table == sys.table
            && forall i :: 0 <= i < |sys.requests| ==>
                 next.requests[i].phase == Answered(Terminal) ==> sys.requests[i].phase == Answered(Terminal)
  {
  }

  lemma StepKeepsNothingTerminal(sys: System, e: Event)
    requires Good(sys) && NothingIsTerminal(sys)
    ensures NothingIsTerminal(Step(sys, e))
  {
    if e.Turn? {
      if e.request < |sys.requests| { TurnKeepsNothingTerminal(sys, e); }
    } else {
      OtherEventsRecordNothing(sys, e);
    }
  }

  /** In every run, whatever is thrown, every recorded failure may be retried, and no request is told that it is terminal. */
  lemma {:induction false} NeverTerminal(setup: Setup, calls: seq<Call>, events: seq<Event>)
    ensures NothingIsTerminal(Run(Initial(setup, calls), events))
  {
    if |events| > 0 {
      NeverTerminal(setup, calls, Front(events));
      EveryRunIsGood(setup, calls, Front(events));
      StepKeepsNothingTerminal(Run(Initial(setup, calls), Front(events)), Last(events));
    }
  }

  /** The request that submitted, in either of its two phases. */
  predicate HasSubmitted(p: Phase, generation: nat) {
    p == Submitted(generation) || p == Replying(generation, NeedsReconciliation)
  }

  /** The record of the request's key is a retryable failure of the same payload, more than the window ago. */
  ghost predicate IsRetryable(sys: System, j: nat, now: int)
    requires j < |sys.requests|
  {
    && sys.requests[j].key in sys.table
    && var record := sys.table[sys.requests[j].key];
       && record.status == IdempotencyRecord.Failed && record.failureRetryable == Some(true)
       && record.requestHash == sys.requests[j].hash
       && now > record.updatedAt + IdempotencyRecord.RETRY_WINDOW
  }

  /** Grant, judge, submit. */
  lemma RetryingTurns(sys: System, j: nat, now: int)
    requires IsAt(sys, j, Checked) && AttemptOf(sys, j).state == InProgress && IsRetryable(sys, j, now)
    ensures var next := Step(Step(Step(sys, TurnAt(j, now)), SomeTurn(j)), SomeTurn(j));
            && IsAt(next, j, next.requests[j].phase)
            && HasSubmitted(next.requests[j].phase, sys.table[sys.requests[j].key].generation + 1)
            && next.requests[j].attempt == sys.requests[j].attempt
            && AttemptOf(next, j).state == CompletionSubmitted
  {
    RetryingTurn(sys, j, now);
    var granted := Step(sys, TurnAt(j, now));
    JudgingTurn(granted, j);
    SubmittingTurn(Step(granted, SomeTurn(j)), j);
  }

  lemma ReadsBeforeRetrying(start: System, events: seq<Event>, j: nat, now: int)
    requires ReadyToComplete(Run(start, events), j) && IsRetryable(Run(start, events), j, now)
    ensures var before, after := Run(start, events), Run(start, events + Times(SomeTurn(j), 2));
            && IsAt(after, j, Checked) && after.attempts == before.attempts && after.table == before.table
            && after.requests[j].attempt == before.requests[j].attempt && after.requests[j].key == before.requests[j].key
            && IsRetryable(after, j, now)
  {
    RunRepeats(start, events, SomeTurn(j), 2);
    FirstTurns(Run(start, events), j);
  }

  lemma RunThreeMore(start: System, events: seq<Event>, e: Event, f: Event, g: Event)
    ensures Run(start, events + [e] + [f] + [g]) == Step(Step(Step(Run(start, events), e), f), g)
  {
    RunOneMore(start, events, e);
    RunOneMore(start, events + [e], f);
    RunOneMore(start, events + [e] + [f], g);
  }

  /**
   * After a failure, while the attempt is still in progress, the same request sent again more than
   * the retry window later is granted the next generation and submits the attempt.
   */
  lemma RetryAfterFailureSubmits(setup: Setup, calls: seq<Call>, events: seq<Event>, j: nat, now: int)
    returns (more: seq<Event>)
    requires var sys := Run(Initial(setup, calls), events);
             && ReadyToComplete(sys, j) && sys.requests[j].key in sys.table
             && var record := sys.table[sys.requests[j].key];
                && record.status == IdempotencyRecord.Failed && record.requestHash == sys.requests[j].hash
                && now > record.updatedAt + IdempotencyRecord.RETRY_WINDOW
    ensures var before, after := Run(Initial(setup, calls), events), Run(Initial(setup, calls), more);
            && j < |after.requests|
            && HasSubmitted(after.requests[j].phase, before.table[before.requests[j].key].generation + 1)
            && before.requests[j].attempt < |after.attempts|
            && after.attempts[before.requests[j].attempt].state == CompletionSubmitted
  {
    var start := Initial(setup, calls);
    NeverTerminal(setup, calls, events);
    var checked := events + Times(SomeTurn(j), 2);
    ReadsBeforeRetrying(start, events, j, now);
    RetryingTurns(Run(start, checked), j, now);
    more := checked + [TurnAt(j, now)] + [SomeTurn(j)] + [SomeTurn(j)];
    RunThreeMore(start, checked, TurnAt(j, now), SomeTurn(j), SomeTurn(j));
  }

  /** The request has failed before submitting anything, at a given time. */
  ghost predicate FailedEarly(sys: System, i: nat, failedAt: int) {
    && IsAt(sys, i, Answered(Fails)) && AttemptOf(sys, i).state == InProgress
    && sys.requests[i].key in sys.table
    && var record := sys.table[sys.requests[i].key];
       && record.status == IdempotencyRecord.Failed && record.updatedAt == failedAt
       && record.requestHash == sys.requests[i].hash && record.generation == IdempotencyRecord.INITIAL_GENERATION
  }

  lemma ThrowingBeforeSubmitting(sys: System, i: nat, failedAt: int)
    requires i < |sys.requests| && sys.requests[i].phase.Judged? && IsAt(sys, i, sys.requests[i].phase)
    requires AttemptOf(sys, i).state == InProgress
    requires sys.requests[i].phase.generation == IdempotencyRecord.INITIAL_GENERATION
    requires IdempotencyRecord.MayFinish(sys.table, sys.requests[i].key, IdempotencyRecord.INITIAL_GENERATION)
    requires sys.table[sys.requests[i].key].requestHash == sys.requests[i].hash
    ensures var next := Step(Step(sys, Throw(i)), TurnAt(i, failedAt));
            FailedEarly(next, i, failedAt) && LeavesOthers(sys, next, i) && next.attempts == sys.attempts
  {
    var thrown := Step(sys, Throw(i));
    assert thrown == SetPhase(sys, i, Failing(IdempotencyRecord.INITIAL_GENERATION));
    FailingTurn(thrown, i, failedAt);
    LeavesTransitively(sys, thrown, Step(thrown, TurnAt(i, failedAt)), i);
  }

  lemma AnyRequestCanFailEarly(setup: Setup, calls: seq<Call>, i: nat, failedAt: int) returns (events: seq<Event>)
    requires i < |calls| && calls[i].attempt < |setup.attempts|
    ensures var sys := Run(Initial(setup, calls), events);
            && FailedEarly(sys, i, failedAt) && ClaimHoldsNow(sys, i)
            && forall j :: 0 <= j < |calls| && j != i ==>
                 j < |sys.requests| && sys.requests[j] == Initial(setup, calls).requests[j]
  {
    var start := Initial(setup, calls);
    var created := AllCreated(setup, calls);
    var prepared := Prepare(start, created, i);
    var checked := prepared + Times(SomeTurn(i), 2);
    RunRepeats(start, prepared, SomeTurn(i), 2);
    FirstTurns(Run(start, prepared), i);
    var judged := checked + Times(SomeTurn(i), 2);
    RunRepeats(start, checked, SomeTurn(i), 2);
    MiddleTurns(Run(start, checked), i);
    ThrowingBeforeSubmitting(Run(start, judged), i, failedAt);
    RunOneMore(start, judged, Throw(i));
    events := judged + [Throw(i)] + [TurnAt(i, failedAt)];
    RunOneMore(start, judged + [Throw(i)], TurnAt(i, failedAt));
  }

  /** From the error to the retry: the same call sent twice, the first time in vain. */
  lemma ThrownRequestCanBeRetried(setup: Setup, calls: seq<Call>, i: nat, j: nat, failedAt: int, now: int)
    returns (events: seq<Event>)
    requires i < |calls| && j < |calls| && i != j && calls[i] == calls[j]
    requires calls[i].attempt < |setup.attempts|
    requires now > failedAt + IdempotencyRecord.RETRY_WINDOW
    ensures var sys := Run(Initial(setup, calls), events);
            && j < |sys.requests| && HasSubmitted(sys.requests[j].phase, IdempotencyRecord.INITIAL_GENERATION + 1)
            && IsSubmitted(sys, calls[j].attempt)
  {
    var failed := AnyRequestCanFailEarly(setup, calls, i, failedAt);
    RunKeepsRequests(setup, calls, failed);
    events := RetryAfterFailureSubmits(setup, calls, failed, j, now);
  }

  // ---------------------------------------------------------------- stuck attempts

  /** COMPLETION_SUBMITTED, and no request is about to consolidate it. */
  ghost predicate IsStuck(sys: System, a: nat) {
    && a < |sys.attempts| && sys.attempts[a].state == CompletionSubmitted
    && forall i :: 0 <= i < |sys.requests| && sys.requests[i].attempt == a ==> !sys.requests[i].phase.Submitted?
  }

  predicate IsCompleted(sys: System, a: nat) {
    a < |sys.attempts| && sys.attempts[a].state == Completed
  }

  /** A turn that neither submits nor consolidates touches no attempt. */
  lemma QuietTurn(sys: System, e: Event)
    requires e.Turn? && e.request < |sys.requests|
    requires !sys.requests[e.request].phase.Judged? && !sys.requests[e.request].phase.Submitted?
    ensures var next := TakeTurn(sys, e);
            next.attempts == sys.attempts && !next.requests[e.request].phase.Submitted?
  {
    var i, r := e.request, sys.requests[e.request];
    match r.phase {
      case Arrived => assert TakeTurn(sys, e) == Find(sys, i, e.owned);
      case Found => assert TakeTurn(sys, e) == Check(sys, i);
      case Checked => assert TakeTurn(sys, e) == Upsert(sys, i, e.now);
      case Rereading(_) => assert TakeTurn(sys, e) == Reread(sys, i);
      case Replying(_, reply) =>
        assert TakeTurn(sys, e) == FinishRequest(sys, i, IdempotencyRecord.CompleteWith(e.text), reply, e.now);
      case Failing(_) =>
        assert TakeTurn(sys, e) == FinishRequest(sys, i, IdempotencyRecord.FailWith(true, e.text), Fails, e.now);
      case _ =>
    }
  }

  /** Submitting does not move an attempt that is submitted already. */
  lemma StuckSubmit(sys: System, i: nat, a: nat)
    requires IsStuck(sys, a) && i < |sys.requests| && sys.requests[i].phase.Judged?
    ensures IsStuck(Submit(sys, i), a) && Submit(sys, i).attempts[a] == sys.attempts[a]
  {
    var r := sys.requests[i];
    assert r.attempt == a ==> !Fires(sys.attempts[a], ToSubmitted(r.phase.status));
  }

  /** Consolidating another attempt does not move it, either. */
  lemma StuckConsolidate(sys: System, i: nat, a: nat, outcome: Outcome, now: int)
    requires IsStuck(sys, a) && i < |sys.requests| && sys.requests[i].phase.Submitted?
    ensures var next := ConsolidateAttempt(sys, i, outcome, now);
            IsStuck(next, a) && next.attempts[a] == sys.attempts[a]
  {
    assert sys.requests[i].attempt != a;
  }

  lemma StuckTurn(sys: System, e: Event, a: nat)
    requires IsStuck(sys, a) && e.Turn? && e.request < |sys.requests|
    ensures IsStuck(TakeTurn(sys, e), a) && TakeTurn(sys, e).attempts[a] == sys.attempts[a]
  {
    var i, r := e.request, sys.requests[e.request];
    if r.phase.Judged? {
      StuckSubmit(sys, i, a);
      assert TakeTurn(sys, e) == Submit(sys, i);
    } else if r.phase.Submitted? && r.attempt < |sys.attempts| {
      var outcome := ComputedOutcome(sys.setup, sys.attempts[r.attempt].identity, sys.log, r.readAt, e.clock);
      StuckConsolidate(sys, i, a, outcome, e.now);
      assert TakeTurn(sys, e) == ConsolidateAttempt(sys, i, outcome, e.now);
    } else if r.phase.Submitted? {
      assert TakeTurn(sys, e) == SetPhase(sys, i, Failing(r.phase.generation));
    } else {
      QuietTurn(sys, e);
    }
  }

  lemma StuckStep(sys: System, e: Event, a: nat)
    requires IsStuck(sys, a)
    ensures IsStuck(Step(sys, e), a) && Step(sys, e).attempts[a] == sys.attempts[a]
  {
    if e.Turn? {
      if e.request < |sys.requests| { StuckTurn(sys, e, a); }
    } else if e.FirstAction? {
      assert e.attempt == a ==> Transitioned(sys.attempts[a], ToInProgress) == sys.attempts[a];
    }
  }

  lemma {:induction false} StuckStaysStuck(sys: System, more: seq<Event>, a: nat)
    requires IsStuck(sys, a)
    ensures IsStuck(Run(sys, more), a) && Run(sys, more).attempts[a] == sys.attempts[a]
  {
    if |more| > 0 {
      StuckStaysStuck(sys, Front(more), a);
      StuckStep(Run(sys, Front(more)), Last(more), a);
    }
  }

  /** A submitted attempt that is not stuck is completed now or by one turn of the request that submitted it. */
  lemma UnstuckCanComplete(setup: Setup, calls: seq<Call>, events: seq<Event>, a: nat) returns (more: seq<Event>)
    requires IsSubmitted(Run(Initial(setup, calls), events), a)
    requires !IsStuck(Run(Initial(setup, calls), events), a)
    ensures IsCompleted(Run(Initial(setup, calls), events + more), a)
  {
    var sys := Run(Initial(setup, calls), events);
    if IsCompleted(sys, a) {
      more := [];
      assert events + more == events;
    } else {
      RunKeepsRequests(setup, calls, events);
      var i :| 0 <= i < |sys.requests| && sys.requests[i].attempt == a && sys.requests[i].phase.Submitted?;
      more := [SomeTurn(i)];
      RunOneMore(Initial(setup, calls), events, SomeTurn(i));
      ConsolidatingTurn(sys, i);
    }
  }

  /**
   * A submitted attempt is never completed, whatever is retried under whatever key, exactly when
   * it is stuck: the request that submitted it has failed, died, or sent it to reconciliation.
   */
  lemma StuckIffNeverCompleted(setup: Setup, calls: seq<Call>, events: seq<Event>, a: nat)
    requires IsSubmitted(Run(Initial(setup, calls), events), a)
    ensures IsStuck(Run(Initial(setup, calls), events), a) <==>
      forall more :: !IsCompleted(Run(Initial(setup, calls), events + more), a)
  {
    if IsStuck(Run(Initial(setup, calls), events), a) {
      forall more ensures !IsCompleted(Run(Initial(setup, calls), events + more), a) {
        StuckStaysStuck(Run(Initial(setup, calls), events), more, a);
        RunContinues(Initial(setup, calls), events, more);
      }
    } else {
      var more := UnstuckCanComplete(setup, calls, events, a);
    }
  }

  /** The request that submitted an attempt is the only one that can be about to consolidate it. */
  lemma OnlySubmitterConsolidates(setup: Setup, calls: seq<Call>, events: seq<Event>, i: nat)
    requires i < |Run(Initial(setup, calls), events).requests|
    requires Run(Initial(setup, calls), events).requests[i].phase.Submitted?
    ensures var sys := Run(Initial(setup, calls), events);
            var a := sys.requests[i].attempt;
            a in sys.submitter && sys.submitter[a] == i
  {
    EveryRunIsGood(setup, calls, events);
    var sys := Run(Initial(setup, calls), events);
    assert AttemptFits(sys.attempts, sys.submitter, i, sys.requests[i]);
  }

  lemma NobodyConsolidatesUnsubmitted(sys: System, a: nat)
    requires AttemptsFit(sys.attempts, sys.requests, sys.submitter) && a < |sys.attempts|
    requires sys.attempts[a].state == InProgress
    ensures forall j :: 0 <= j < |sys.requests| && sys.requests[j].attempt == a ==> !sys.requests[j].phase.Submitted?
  {
    forall j | 0 <= j < |sys.requests| && sys.requests[j].attempt == a ensures !sys.requests[j].phase.Submitted? {
      assert AttemptFits(sys.attempts, sys.submitter, j, sys.requests[j]);
    }
  }

  lemma ThrowingAfterSubmitting(sys: System, i: nat)
    requires Good(sys) && i < |sys.requests| && sys.requests[i].phase.Judged? && IsAt(sys, i, sys.requests[i].phase)
    requires AttemptOf(sys, i).state == InProgress
    ensures IsStuck(Step(Step(sys, SomeTurn(i)), Throw(i)), sys.requests[i].attempt)
  {
    NobodyConsolidatesUnsubmitted(sys, sys.requests[i].attempt);
    SubmittingTurn(sys, i);
    var submitted := Step(sys, SomeTurn(i));
    assert Step(submitted, Throw(i)) == SetPhase(submitted, i, Failing(submitted.requests[i].phase.generation));
  }

  /** Every attempt that is called for can get stuck: an error thrown right after the submission is enough. */
  lemma AnyAttemptCanGetStuck(setup: Setup, calls: seq<Call>, i: nat) returns (events: seq<Event>)
    requires i < |calls| && calls[i].attempt < |setup.attempts|
    ensures IsStuck(Run(Initial(setup, calls), events), calls[i].attempt)
  {
    var start := Initial(setup, calls);
    var created := AllCreated(setup, calls);
    var prepared := Prepare(start, created, i);
    var checked := prepared + Times(SomeTurn(i), 2);
    RunRepeats(start, prepared, SomeTurn(i), 2);
    FirstTurns(Run(start, prepared), i);
    var judged := checked + Times(SomeTurn(i), 2);
    RunRepeats(start, checked, SomeTurn(i), 2);
    MiddleTurns(Run(start, checked), i);
    EveryRunIsGood(setup, calls, judged);
    ThrowingAfterSubmitting(Run(start, judged), i);
    RunOneMore(start, judged, SomeTurn(i));
    events := judged + [SomeTurn(i)] + [Throw(i)];
    RunOneMore(start, judged + [SomeTurn(i)], Throw(i));
  }

  // ---------------------------------------------------------------- a second consolidation

  /** Request `i` has not begun, nor has its attempt, and nothing stands in its way. */
  ghost predicate IsUnrivalled(sys: System, i: nat) {
    && IsAt(sys, i, Arrived) && AttemptOf(sys, i).state == Created
    && NothingLogged(sys.log, AttemptOf(sys, i).identity.id)
    && sys.requests[i].key !in sys.table
    && (forall c :: 0 <= c < |sys.attempts| ==> !Reconciliation.IsPending(sys.attempts[c]))
    && forall c, d :: 0 <= c < d < |sys.attempts| ==>
         !(Reconciliation.IsConsolidated(sys.attempts[c]) && Reconciliation.IsConsolidated(sys.attempts[d]))
  }

  /** The attempt of request `i` is consolidated, and of the others nothing has changed but the log's length. */
  ghost predicate ConsolidatesOnly(before: System, after: System, i: nat)
    requires i < |before.requests| && before.requests[i].attempt < |before.attempts|
  {
    var a := before.requests[i].attempt;
    && |after.attempts| == |before.attempts| && IdentitiesFit(after) && after.setup == before.setup
    && after.attempts[a].state == Completed && after.attempts[a].completionStatus == Some(Consolidated)
    && (forall c :: 0 <= c < |after.attempts| && c != a ==> after.attempts[c] == before.attempts[c])
    && |after.requests| == |before.requests|
    && (forall j :: 0 <= j < |after.requests| && j != i ==> after.requests[j] == before.requests[j])
    && after.log == before.log + [FirstEntry(before, i)]
    && (forall k :: k != before.requests[i].key && k !in before.table ==> k !in after.table)
  }

  lemma UnrivalledConsolidates(sys: System, events: seq<Event>, i: nat) returns (more: seq<Event>)
    requires IsUnrivalled(Run(sys, events), i)
    ensures ConsolidatesOnly(Run(sys, events), Run(sys, more), i)
  {
    var ready := Prepare(sys, events, i);
    AloneIsLetThrough(Run(sys, ready).attempts, Run(sys, events).requests[i].attempt);
    more := CompletingRun(sys, ready, i);
  }

  /** Attempts all new. */
  ghost predicate AllNew(sys: System) {
    forall c :: 0 <= c < |sys.attempts| ==> sys.attempts[c] == NewAttempt(sys.attempts[c].identity)
  }

  lemma NewIsUnrivalled(setup: Setup, calls: seq<Call>, sys: System, i: nat)
    requires i < |calls| && calls[i].attempt < |setup.attempts|
    requires sys == Initial(setup, calls).(attempts := sys.attempts)
    requires |sys.attempts| == |setup.attempts|
    requires forall a :: 0 <= a < |sys.attempts| ==> sys.attempts[a] == NewAttempt(setup.attempts[a])
    ensures AllNew(sys) && IsUnrivalled(sys, i)
  {
  }

  lemma NextIsUnrivalled(before: System, after: System, i: nat, j: nat)
    requires IsUnrivalled(before, i) && IsUnrivalled(before, j) && AllNew(before)
    requires before.requests[i].attempt != before.requests[j].attempt
    requires before.requests[i].key != before.requests[j].key
    requires AttemptOf(before, i).identity.id != AttemptOf(before, j).identity.id
    requires ConsolidatesOnly(before, after, i)
    ensures IsUnrivalled(after, j)
  {
  }

  /**
   * Two attempts, of one student at one assignment for instance, can both be consolidated: the
   * second request reads AUTO_RESOLVABLE, and that lets it through. All it takes is a new key.
   */
  lemma SecondAttemptCanBeConsolidated(setup: Setup, calls: seq<Call>, i: nat, j: nat) returns (events: seq<Event>)
    requires DistinctIds(setup)
    requires i < |calls| && calls[i].attempt < |setup.attempts|
    requires j < |calls| && calls[j].attempt < |setup.attempts|
    requires calls[i].attempt != calls[j].attempt && KeyFor(setup, calls[i]) != KeyFor(setup, calls[j])
    ensures var sys := Run(Initial(setup, calls), events);
            IsCompleted(sys, calls[i].attempt) && IsCompleted(sys, calls[j].attempt)
  {
    var start := Initial(setup, calls);
    var created := AllCreated(setup, calls);
    var s0 := Run(start, created);
    NewIsUnrivalled(setup, calls, s0, i);
    NewIsUnrivalled(setup, calls, s0, j);
    var first := UnrivalledConsolidates(start, created, i);
    NextIsUnrivalled(s0, Run(start, first), i, j);
    events := UnrivalledConsolidates(start, first, j);
    RunKeepsRequests(setup, calls, first);
    RunKeepsRequests(setup, calls, events);
  }

  /** Both in one scope: from then on the verdict asks for reconciliation. */
  lemma TwoConsolidatedNeedReconciliation(attempts: seq<Attempt>, a: nat, b: nat)
    requires a < b < |attempts| && ScopeOf(attempts[a]) == ScopeOf(attempts[b])
    requires Reconciliation.IsConsolidated(attempts[a]) && Reconciliation.IsConsolidated(attempts[b])
    ensures StatusFor(attempts, attempts[b]) == ReconciliationRequired
  {
    LetThroughIff(attempts, attempts[b]);
    CountedTwice(attempts, a, b, attempts[b], Reconciliation.IsConsolidated);
  }

  lemma {:induction false} CountedTwice(attempts: seq<Attempt>, a: nat, b: nat, of: Attempt, kind: Attempt -> bool)
    requires a < b < |attempts| && kind(attempts[a]) && kind(attempts[b])
    requires Reconciliation.InScope(attempts[a], ScopeOf(of)) && Reconciliation.InScope(attempts[b], ScopeOf(of))
    ensures InScopeCount(attempts, of, kind) >= 2
  {
    if b == |attempts| - 1 {
      CountedOnce(Front(attempts), a, of, kind);
      assert Front(attempts)[a] == attempts[a];
    } else {
      CountedTwice(Front(attempts), a, b, of, kind);
    }
  }

  lemma {:induction false} CountedOnce(attempts: seq<Attempt>, a: nat, of: Attempt, kind: Attempt -> bool)
    requires a < |attempts| && kind(attempts[a]) && Reconciliation.InScope(attempts[a], ScopeOf(of))
    ensures InScopeCount(attempts, of, kind) >= 1
  {
    if a < |attempts| - 1 {
      CountedOnce(Front(attempts), a, of, kind);
    }
  }

  // ---------------------------------------------------------------- a late action

  /** The action that comes after the one the claim of request `i` names. */
  function LateEntry(sys: System, i: nat): LogEntry<SemanticAction>
    requires i < |sys.requests| && sys.requests[i].attempt < |sys.attempts|
  {
    EntryFor(AttemptOf(sys, i).identity, "late", Claimed(sys.requests[i].claim) + 1)
  }

  /** The request has read a log of one action, nothing is stored, and its verdict will let it through. */
  ghost predicate HasReadOne(sys: System, i: nat) {
    && IsAt(sys, i, Checked) && AttemptOf(sys, i).state == InProgress && sys.table == map[]
    && StatusFor(sys.attempts, AttemptOf(sys, i)) == AcceptedNotConsolidated
    && sys.requests[i].readAt == 1
  }

  lemma ReadsAlone(setup: Setup, calls: seq<Call>, i: nat) returns (events: seq<Event>)
    requires i < |calls| && calls[i].attempt < |setup.attempts|
    ensures var sys := Run(Initial(setup, calls), events);
            HasReadOne(sys, i) && sys.log == [FirstEntry(sys, i)]
  {
    var start := Initial(setup, calls);
    var created := AllCreated(setup, calls);
    var prepared := Prepare(start, created, i);
    AloneIsLetThrough(Run(start, prepared).attempts, calls[i].attempt);
    events := prepared + Times(SomeTurn(i), 2);
    RunRepeats(start, prepared, SomeTurn(i), 2);
    FirstTurns(Run(start, prepared), i);
  }

  lemma LogsLate(sys: System, i: nat)
    requires HasReadOne(sys, i) && sys.log == [FirstEntry(sys, i)]
    ensures var next := Step(sys, LogAction(LateEntry(sys, i)));
            next == sys.(log := next.log) && next.log == sys.log + [LateEntry(sys, i)]
  {
    LateIsAccepted(sys.log, LateEntry(sys, i));
  }

  /** One more action of it is logged while its attempt is still in progress. */
  lemma ReadsThenLogs(setup: Setup, calls: seq<Call>, i: nat) returns (events: seq<Event>)
    requires i < |calls| && calls[i].attempt < |setup.attempts|
    ensures var sys := Run(Initial(setup, calls), events);
            HasReadOne(sys, i) && |sys.log| == 2 && sys.log[1] == LateEntry(sys, i)
  {
    var start := Initial(setup, calls);
    var read := ReadsAlone(setup, calls, i);
    var sys := Run(start, read);
    LogsLate(sys, i);
    events := read + [LogAction(LateEntry(sys, i))];
    RunOneMore(start, read, LogAction(LateEntry(sys, i)));
  }

  /**
   * An action logged while the attempt is still in progress, after the completing request has read
   * the log, is not scored: a run that consolidates and has one.
   */
  lemma LateActionIsNotScored(setup: Setup, calls: seq<Call>, i: nat) returns (events: seq<Event>)
    requires i < |calls| && calls[i].attempt < |setup.attempts|
    ensures var sys := Run(Initial(setup, calls), events);
            && i < |sys.requests| && ClaimsConsolidation(sys.requests[i].phase)
            && sys.requests[i].readAt <= |sys.log|
            && var id := setup.attempts[calls[i].attempt];
               OfAttempt(sys.log[sys.requests[i].readAt..], id.id, id.tenantId) != []
  {
    var start := Initial(setup, calls);
    var logged := ReadsThenLogs(setup, calls, i);
    RunKeepsRequests(setup, calls, logged);
    var s := Run(start, logged);
    var judged := logged + Times(SomeTurn(i), 2);
    RunRepeats(start, logged, SomeTurn(i), 2);
    MiddleTurns(s, i);
    events := judged + Times(SomeTurn(i), 2);
    RunRepeats(start, judged, SomeTurn(i), 2);
    SubmittedAndConsolidated(Run(start, judged), i);
    var late := LateEntry(s, i);
    assert s.log[1..] == [late];
    assert Front([late]) == [] && Last([late]) == late;
  }

  lemma LateIsAccepted(log: seq<LogEntry<SemanticAction>>, late: LogEntry<SemanticAction>)
    requires |log| == 1 && log[0].actionId == "first" && late.actionId == "late"
    requires log[0].clientSequence != late.clientSequence
    ensures AfterInsert(log, late) == log + [late]
  {
    assert log[0].actionId != late.actionId by { assert |"first"| != |"late"|; }
  }

  lemma SubmittedAndConsolidated(sys: System, i: nat)
    requires i < |sys.requests| && IsAt(sys, i, Judged(IdempotencyRecord.INITIAL_GENERATION, AcceptedNotConsolidated))
    requires AttemptOf(sys, i).state == InProgress
    ensures var next := Repeat(sys, SomeTurn(i), 2);
            && LeavesOthers(sys, next, i) && ClaimsConsolidation(next.requests[i].phase)
            && next.requests[i].readAt == sys.requests[i].readAt
  {
    TwoSteps(sys, SomeTurn(i));
    SubmittingTurn(sys, i);
    ConsolidatingTurn(Step(sys, SomeTurn(i)), i);
    LeavesTransitively(sys, Step(sys, SomeTurn(i)), Repeat(sys, SomeTurn(i), 2), i);
  }
}
