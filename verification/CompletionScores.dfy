/**
 * The score of a CONSOLIDATED answer: what it was computed from, and when it is the score of
 * the attempt's whole log and of what the student's screen shows.
 */
module CompletionScores {
  import opened Prelude
  import opened StableSorting
  import IdempotencyRecord
  import opened AttemptLifecycle
  import opened EngineRuntime
  import opened EngineReplay
  import opened ActionDelivery
  import AttemptConsolidation
  import opened CompletionRoute

  predicate ClaimsConsolidation(p: Phase) {
    Outcomes(p).Some? && Outcomes(p).value.Consolidates?
  }

  predicate HasRead(p: Phase) {
    WasAdmitted(p) && !p.Found?
  }

  /** What was read satisfied the claim, and a CONSOLIDATED answer was computed from it. */
  predicate ScoreFits(sys: System, r: Request) {
    && r.readAt <= |sys.log|
    && (HasRead(r.phase) ==>
          r.attempt < |sys.setup.attempts|
          && ClaimHolds(r.claim, sys.setup.attempts[r.attempt], sys.log, r.readAt))
    && (ClaimsConsolidation(r.phase) ==>
          var o := Outcomes(r.phase).value.outcome;
          && r.attempt < |sys.setup.attempts|
          && o == ComputedOutcome(sys.setup, sys.setup.attempts[r.attempt], sys.log, r.readAt, o.consolidatedAt))
  }

  ghost predicate ScoresFit(sys: System) {
    forall i :: 0 <= i < |sys.requests| ==> ScoreFits(sys, sys.requests[i])
  }

  lemma ReadingIsStable(identity: Identity, log: seq<LogEntry<SemanticAction>>, more: seq<LogEntry<SemanticAction>>,
                        readAt: nat)
    requires readAt <= |log| && log <= more
    ensures ActionsRead(identity, more, readAt) == ActionsRead(identity, log, readAt)
    ensures forall claim :: ClaimHolds(claim, identity, more, readAt) == ClaimHolds(claim, identity, log, readAt)
  {
    assert more[..readAt] == log[..readAt];
  }

  lemma UnchangedRequestsKeepScores(sys: System, next: System, j: nat)
    requires Continues(sys, next) && j < |sys.requests| && next.requests[j] == sys.requests[j]
    requires ScoreFits(sys, sys.requests[j])
    ensures ScoreFits(next, next.requests[j])
  {
    var r := sys.requests[j];
    if r.attempt < |sys.setup.attempts| {
      ReadingIsStable(sys.setup.attempts[r.attempt], sys.log, next.log, r.readAt);
    }
  }

  /** Reading checks the claim. */
  lemma CheckingKeepsScore(sys: System, e: Event)
    requires IdentitiesFit(sys) && e.Turn? && e.request < |sys.requests| && sys.requests[e.request].phase.Found?
    ensures ScoreFits(TakeTurn(sys, e), TakeTurn(sys, e).requests[e.request])
  {
    assert TakeTurn(sys, e) == Check(sys, e.request);
  }

  lemma ConsolidatingKeepsScore(sys: System, e: Event)
    requires IdentitiesFit(sys) && e.Turn? && e.request < |sys.requests| && sys.requests[e.request].phase.Submitted?
    requires ScoreFits(sys, sys.requests[e.request])
    ensures ScoreFits(TakeTurn(sys, e), TakeTurn(sys, e).requests[e.request])
  {
    var i, r := e.request, sys.requests[e.request];
    if r.attempt < |sys.attempts| {
      var outcome := ComputedOutcome(sys.setup, sys.attempts[r.attempt].identity, sys.log, r.readAt, e.clock);
      assert TakeTurn(sys, e) == ConsolidateAttempt(sys, i, outcome, e.now);
    }
  }

  /** Going from `p` to `q` reads nothing and claims nothing new. */
  predicate ClaimsNothingNew(p: Phase, q: Phase) {
    && (HasRead(q) ==> HasRead(p))
    && (ClaimsConsolidation(q) ==> ClaimsConsolidation(p) && Outcomes(q) == Outcomes(p))
  }

  lemma EarlyTurnsClaimNothing(sys: System, e: Event)
    requires e.Turn? && e.request < |sys.requests|
    requires var p := sys.requests[e.request].phase;
             p.Arrived? || p.Checked? || p.Classifying? || p.Granted? || p.Judged?
    ensures ClaimsNothingNew(sys.requests[e.request].phase, TakeTurn(sys, e).requests[e.request].phase)
  {
    var i, r := e.request, sys.requests[e.request];
    match r.phase {
      case Arrived => assert TakeTurn(sys, e) == Find(sys, i, e.owned);
      case Checked => assert TakeTurn(sys, e) == Upsert(sys, i, e.now);
      case Judged(_, _) => assert TakeTurn(sys, e) == Submit(sys, i);
      case _ =>
    }
  }

  lemma LateTurnsClaimNothing(sys: System, e: Event)
    requires e.Turn? && e.request < |sys.requests|
    requires var p := sys.requests[e.request].phase;
             p.Rereading? || p.Replying? || p.Failing? || p.Answered?
    ensures ClaimsNothingNew(sys.requests[e.request].phase, TakeTurn(sys, e).requests[e.request].phase)
  {
    var i, r := e.request, sys.requests[e.request];
    match r.phase {
      case Rereading(_) => assert TakeTurn(sys, e) == Reread(sys, i);
      case Replying(_, reply) =>
        assert TakeTurn(sys, e) == FinishRequest(sys, i, IdempotencyRecord.CompleteWith(e.text), reply, e.now);
      case Failing(_) =>
        assert TakeTurn(sys, e) == FinishRequest(sys, i, IdempotencyRecord.FailWith(true, e.text), Fails, e.now);
      case _ =>
    }
  }

  /** No other turn leads from an unread to a read log, or to a CONSOLIDATED answer that was not there. */
  lemma OtherTurnsClaimNothing(sys: System, e: Event)
    requires e.Turn? && e.request < |sys.requests|
    requires !sys.requests[e.request].phase.Found? && !sys.requests[e.request].phase.Submitted?
    ensures ClaimsNothingNew(sys.requests[e.request].phase, TakeTurn(sys, e).requests[e.request].phase)
  {
    var p := sys.requests[e.request].phase;
    if p.Rereading? || p.Replying? || p.Failing? || p.Answered? {
      LateTurnsClaimNothing(sys, e);
    } else {
      EarlyTurnsClaimNothing(sys, e);
    }
  }

  /** The request that moves. */
  lemma MovingRequestKeepsScore(sys: System, e: Event)
    requires IdentitiesFit(sys) && e.Turn? && e.request < |sys.requests|
    requires ScoreFits(sys, sys.requests[e.request])
    ensures ScoreFits(TakeTurn(sys, e), TakeTurn(sys, e).requests[e.request])
  {
    var r := sys.requests[e.request];
    if r.phase.Submitted? {
      ConsolidatingKeepsScore(sys, e);
    } else if r.phase.Found? {
      CheckingKeepsScore(sys, e);
    } else {
      OtherTurnsClaimNothing(sys, e);
    }
  }

  lemma StepKeepsScores(sys: System, e: Event)
    requires IdentitiesFit(sys) && ScoresFit(sys)
    ensures ScoresFit(Step(sys, e))
  {
    var next := Step(sys, e);
    forall j | 0 <= j < |next.requests| ensures ScoreFits(next, next.requests[j]) {
      assert ScoreFits(sys, sys.requests[j]);
      if e.Turn? && e.request < |sys.requests| {
        if j == e.request {
          MovingRequestKeepsScore(sys, e);
        } else {
          UnchangedRequestsKeepScores(sys, next, j);
        }
      } else if next.requests[j] == sys.requests[j] {
        UnchangedRequestsKeepScores(sys, next, j);
      }
    }
  }

  lemma {:induction false} EveryRunKeepsScores(setup: Setup, calls: seq<Call>, events: seq<Event>)
    ensures ScoresFit(Run(Initial(setup, calls), events))
  {
    if |events| > 0 {
      EveryRunKeepsScores(setup, calls, Front(events));
      RunKeepsRequests(setup, calls, Front(events));
      StepKeepsScores(Run(Initial(setup, calls), Front(events)), Last(events));
    }
  }

  lemma {:induction false} LogStaysUnique(setup: Setup, calls: seq<Call>, events: seq<Event>)
    ensures UniqueEntries(Run(Initial(setup, calls), events).log)
  {
    if |events| > 0 {
      LogStaysUnique(setup, calls, Front(events));
    }
  }

  /** The consolidation job of an attempt over a given log. */
  ghost predicate IsJobOf<C, S>(job: AttemptConsolidation.Job<C, S, SemanticAction>, identity: Identity) {
    job.attemptId == identity.id && job.tenantId == identity.tenantId && job.contentId == identity.contentId
  }

  /** The setup scores the job's content with the job's engine. */
  ghost predicate ScoresWith<C, S>(setup: Setup, job: AttemptConsolidation.Job<C, S, SemanticAction>) {
    forall actions :: setup.score(job.contentId, actions) == AttemptConsolidation.OutcomeAt(job.(actions := actions), 0).score
  }

  /** The outcome of the job over the attempt's actions in `log`, as the consolidation service computes it. */
  ghost function OutcomeOver<C, S>(job: AttemptConsolidation.Job<C, S, SemanticAction>,
                                   log: seq<LogEntry<SemanticAction>>, clock: int): Outcome
  {
    AttemptConsolidation.OutcomeAt(
      job.(actions := ActionsOf(ReadLog(log, job.attemptId, job.tenantId))), clock)
  }

  lemma ComputedIsEvaluated<C, S>(setup: Setup, identity: Identity, log: seq<LogEntry<SemanticAction>>, readAt: nat,
                                  clock: int, job: AttemptConsolidation.Job<C, S, SemanticAction>)
    requires IsJobOf(job, identity) && ScoresWith(setup, job) && readAt <= |log|
    ensures ComputedOutcome(setup, identity, log, readAt, clock) == OutcomeOver(job, log[..readAt], clock)
  {
    var actions := ActionsRead(identity, log, readAt);
    assert setup.score(job.contentId, actions) == AttemptConsolidation.OutcomeAt(job.(actions := actions), 0).score;
  }

  lemma ConsolidatedOutcomeIsStored(setup: Setup, calls: seq<Call>, events: seq<Event>, i: nat)
    requires i < |Run(Initial(setup, calls), events).requests|
    requires ClaimsConsolidation(Run(Initial(setup, calls), events).requests[i].phase)
    ensures var sys := Run(Initial(setup, calls), events);
            var r := sys.requests[i];
            var o := Outcomes(r.phase).value.outcome;
            && r.attempt < |sys.attempts| && r.attempt < |setup.attempts| && r.readAt <= |sys.log|
            && sys.attempts[r.attempt].outcome == Some(o)
            && o == ComputedOutcome(setup, setup.attempts[r.attempt], sys.log, r.readAt, o.consolidatedAt)
  {
    var sys := Run(Initial(setup, calls), events);
    EveryRunIsGood(setup, calls, events);
    EveryRunKeepsScores(setup, calls, events);
    RunKeepsRequests(setup, calls, events);
    assert AttemptFits(sys.attempts, sys.submitter, i, sys.requests[i]);
    assert ScoreFits(sys, sys.requests[i]);
  }

  /**
   * The score of a CONSOLIDATED answer, which is the one stored on the attempt, is the evaluation
   * of the replayed log as the request read it.
   */
  lemma ConsolidatedScoreIsEvaluation<C, S>(
    setup: Setup, calls: seq<Call>, events: seq<Event>, i: nat,
    job: AttemptConsolidation.Job<C, S, SemanticAction>)
    requires i < |Run(Initial(setup, calls), events).requests|
    requires ClaimsConsolidation(Run(Initial(setup, calls), events).requests[i].phase)
    requires var a := Run(Initial(setup, calls), events).requests[i].attempt;
             a < |setup.attempts| ==> IsJobOf(job, setup.attempts[a])
    requires ScoresWith(setup, job)
    ensures var sys := Run(Initial(setup, calls), events);
            var r := sys.requests[i];
            var o := Outcomes(r.phase).value.outcome;
            && r.attempt < |sys.attempts| && r.readAt <= |sys.log|
            && sys.attempts[r.attempt].outcome == Some(o)
            && o == OutcomeOver(job, sys.log[..r.readAt], o.consolidatedAt)
  {
    ConsolidatedOutcomeIsStored(setup, calls, events, i);
    var sys := Run(Initial(setup, calls), events);
    var r := sys.requests[i];
    ComputedIsEvaluated(setup, setup.attempts[r.attempt], sys.log, r.readAt,
                        Outcomes(r.phase).value.outcome.consolidatedAt, job);
  }

  lemma {:induction false} OfAttemptConcat<A>(s: seq<LogEntry<A>>, t: seq<LogEntry<A>>, attemptId: string, tenantId: string)
    ensures OfAttempt(s + t, attemptId, tenantId) == OfAttempt(s, attemptId, tenantId) + OfAttempt(t, attemptId, tenantId)
  {
    if |t| == 0 {
      assert s + t == s;
    } else {
      OfAttemptConcat(s, Front(t), attemptId, tenantId);
      assert Front(s + t) == s + Front(t) && Last(s + t) == Last(t);
    }
  }

  lemma ReadLogLength(log: seq<LogEntry<SemanticAction>>, identity: Identity)
    ensures |ActionsOf(ReadLog(log, identity.id, identity.tenantId))| == |OfAttempt(log, identity.id, identity.tenantId)|
  {
    SortIsOrderedPermutation(OfAttempt(log, identity.id, identity.tenantId), Sequence<SemanticAction>());
  }

  /** What the request read is the attempt's whole log exactly when nothing of it was logged later. */
  lemma ReadingIsCompleteIffNothingLater(identity: Identity, log: seq<LogEntry<SemanticAction>>, readAt: nat)
    requires readAt <= |log|
    ensures ActionsRead(identity, log, readAt) == ActionsRead(identity, log, |log|)
      <==> OfAttempt(log[readAt..], identity.id, identity.tenantId) == []
  {
    var seen, later := log[..readAt], log[readAt..];
    OfAttemptConcat(seen, later, identity.id, identity.tenantId);
    assert seen + later == log && log[..|log|] == log;
    ReadLogLength(log, identity);
    ReadLogLength(seen, identity);
    if OfAttempt(later, identity.id, identity.tenantId) == [] {
      assert OfAttempt(log, identity.id, identity.tenantId) == OfAttempt(seen, identity.id, identity.tenantId);
    }
  }

  /**
   * Whatever the scoring, a score computed from the reading is the score of the attempt's whole
   * log exactly when nothing of the attempt was logged after the reading.
   */
  lemma ScoreCoversLogIffNothingLater(identity: Identity, log: seq<LogEntry<SemanticAction>>, readAt: nat)
    requires readAt <= |log|
    ensures (forall score: seq<SemanticAction> -> Option<nat> ::
               score(ActionsRead(identity, log, readAt)) == score(ActionsRead(identity, log, |log|)))
      <==> OfAttempt(log[readAt..], identity.id, identity.tenantId) == []
  {
    ReadingIsCompleteIffNothingLater(identity, log, readAt);
    if ActionsRead(identity, log, readAt) != ActionsRead(identity, log, |log|) {
      var score := ScoreThatTells(ActionsRead(identity, log, readAt), ActionsRead(identity, log, |log|));
    }
  }

  lemma ScoreThatTells(read: seq<SemanticAction>, whole: seq<SemanticAction>)
    returns (score: seq<SemanticAction> -> Option<nat>)
    requires read != whole
    ensures score(read) != score(whole)
  {
    score := (actions: seq<SemanticAction>) => if actions == read then Some(1) else None;
  }

  // ---------------------------------------------------------------- what the screen shows

  /** Of the attempt, only the client's messages are in the log. */
  ghost predicate OnlyMessages(log: seq<LogEntry<SemanticAction>>, attemptId: string,
                               messages: seq<LogEntry<SemanticAction>>)
  {
    forall p :: 0 <= p < |log| && log[p].attemptId == attemptId ==>
      log[p].clientSequence < |messages| && log[p] == messages[log[p].clientSequence]
  }

  /** No message is logged before an earlier one. */
  ghost predicate LoggedInOrder(log: seq<LogEntry<SemanticAction>>, messages: seq<LogEntry<SemanticAction>>) {
    forall p, i, j :: 0 <= p < |log| && 0 <= i < j < |messages| && log[p] == messages[j] ==>
      messages[i] in log[..p]
  }

  /** A log that satisfies the client's claim, in order, is the client's log. */
  lemma ClaimedLogIsComplete(log: seq<LogEntry<SemanticAction>>, readAt: nat, identity: Identity,
                             messages: seq<LogEntry<SemanticAction>>)
    requires UniqueEntries(log) && readAt <= |log|
    requires Numbered(messages, identity.id, identity.tenantId) && |messages| > 0
    requires OnlyMessages(log, identity.id, messages) && LoggedInOrder(log, messages)
    requires ClaimHolds(Some(|messages| - 1), identity, log, readAt)
    ensures ReadLog(log[..readAt], identity.id, identity.tenantId) == messages
  {
    var seen := log[..readAt];
    assert UniqueEntries(seen) && OnlyMessages(seen, identity.id, messages);
    LastIsSeen(seen, identity, messages);
    forall i | 0 <= i < |messages| ensures messages[i] in seen {
      MessageIsSeen(log, readAt, messages, i);
    }
    AllSeenIsRead(seen, identity, messages);
  }

  lemma AllSeenIsRead(seen: seq<LogEntry<SemanticAction>>, identity: Identity, messages: seq<LogEntry<SemanticAction>>)
    requires UniqueEntries(seen)
    requires Numbered(messages, identity.id, identity.tenantId) && OnlyMessages(seen, identity.id, messages)
    requires forall i :: 0 <= i < |messages| ==> messages[i] in seen
    ensures ReadLog(seen, identity.id, identity.tenantId) == messages
  {
    var read := ReadLog(seen, identity.id, identity.tenantId);
    ReadLogIsExact(seen, identity.id, identity.tenantId);
    forall e ensures e in read <==> e in messages {
      if e in read {
        SeenIsMessage(seen, identity.id, messages, e);
      }
    }
    StrictOrderIsUnique(read, messages);
  }

  lemma SeenIsMessage(seen: seq<LogEntry<SemanticAction>>, attemptId: string, messages: seq<LogEntry<SemanticAction>>,
                      e: LogEntry<SemanticAction>)
    requires OnlyMessages(seen, attemptId, messages) && e in seen && e.attemptId == attemptId
    ensures e.clientSequence < |messages| && e == messages[e.clientSequence]
  {
    var p :| 0 <= p < |seen| && seen[p] == e;
  }

  lemma LastIsSeen(seen: seq<LogEntry<SemanticAction>>, identity: Identity, messages: seq<LogEntry<SemanticAction>>)
    requires UniqueEntries(seen) && |messages| > 0
    requires OnlyMessages(seen, identity.id, messages)
    requires CheckFinalClientSequence(Some(|messages| - 1), ReadLog(seen, identity.id, identity.tenantId))
    ensures messages[|messages| - 1] in seen
  {
    var e := ClaimIsReached(ReadLog(seen, identity.id, identity.tenantId), |messages| - 1);
    ReadLogIsExact(seen, identity.id, identity.tenantId);
    SeenIsMessage(seen, identity.id, messages, e);
  }

  lemma ClaimIsReached(read: seq<LogEntry<SemanticAction>>, claim: nat) returns (e: LogEntry<SemanticAction>)
    requires CheckFinalClientSequence(Some(claim), read)
    ensures e in read && e.clientSequence >= claim
  {
    var k :| 0 <= k < |read| && read[k].clientSequence == MaxSequence(read);
    e := read[k];
  }

  lemma MessageIsSeen(log: seq<LogEntry<SemanticAction>>, readAt: nat, messages: seq<LogEntry<SemanticAction>>, i: nat)
    requires readAt <= |log| && i < |messages| && LoggedInOrder(log, messages)
    requires messages[|messages| - 1] in log[..readAt]
    ensures messages[i] in log[..readAt]
  {
    var last := |messages| - 1;
    if i < last {
      var p :| 0 <= p < readAt && log[..readAt][p] == messages[last];
      assert log[p] == messages[last];
      var q :| 0 <= q < p && log[..p][q] == messages[i];
      assert log[..readAt][q] == messages[i];
    }
  }

  function ScoreShown(evaluation: EvaluationResult): Option<nat> {
    match evaluation
    case Evaluated(_, score, _) => Some(score)
    case NotEvaluated(_) => None
  }

  /** The job runs the engine that the host has mounted, on the same configuration. */
  ghost predicate RunsTheHost<C, S>(job: AttemptConsolidation.Job<C, S, SemanticAction>,
                                    host: EngineHost<C, S, SemanticAction>)
  {
    && job.dispatch.Some? && job.dispatch.value.engine == host.engine
    && host.engine.validateConfig(job.dispatch.value.rawConfig) == Some(host.config)
  }

  lemma HostScoreIsOutcome<C, S>(job: AttemptConsolidation.Job<C, S, SemanticAction>,
                                 host: EngineHost<C, S, SemanticAction>, clock: int)
    requires RunsTheHost(job, host) && host.Valid()
    ensures AttemptConsolidation.OutcomeAt(job.(actions := host.Actions()), clock)
         == Outcome(job.attemptId, ScoreShown(host.engine.evaluate(host.state, host.config)), clock)
  {
  }

  /**
   * End to end: if the client's messages are the mounted host's actions, are logged in order, and
   * the request claims the last of them, then a CONSOLIDATED answer, and the attempt's row, carry
   * the score of what the student's screen shows.
   */
  lemma ConsolidatedScoreIsWhatTheHostShows<C, S>(
    setup: Setup, calls: seq<Call>, events: seq<Event>, i: nat,
    job: AttemptConsolidation.Job<C, S, SemanticAction>, host: EngineHost<C, S, SemanticAction>,
    messages: seq<LogEntry<SemanticAction>>)
    requires i < |Run(Initial(setup, calls), events).requests|
    requires var r := Run(Initial(setup, calls), events).requests[i];
             && ClaimsConsolidation(r.phase) && r.claim == Some(|messages| - 1)
             && (r.attempt < |setup.attempts| ==> IsJobOf(job, setup.attempts[r.attempt]))
    requires ScoresWith(setup, job) && RunsTheHost(job, host)
    requires host.Valid() && ActionsOf(messages) == host.Actions()
    requires Numbered(messages, job.attemptId, job.tenantId) && |messages| > 0
    requires OnlyMessages(Run(Initial(setup, calls), events).log, job.attemptId, messages)
    requires LoggedInOrder(Run(Initial(setup, calls), events).log, messages)
    ensures var sys := Run(Initial(setup, calls), events);
            var r := sys.requests[i];
            var o := Outcomes(r.phase).value.outcome;
            && r.attempt < |sys.attempts| && sys.attempts[r.attempt].outcome == Some(o)
            && o.score == ScoreShown(host.engine.evaluate(host.state, host.config))
  {
    ConsolidatedScoreIsEvaluation(setup, calls, events, i, job);
    EveryRunKeepsScores(setup, calls, events);
    RunKeepsRequests(setup, calls, events);
    LogStaysUnique(setup, calls, events);
    var sys := Run(Initial(setup, calls), events);
    var r := sys.requests[i];
    assert ScoreFits(sys, r);
    ClaimedLogIsComplete(sys.log, r.readAt, setup.attempts[r.attempt], messages);
    HostScoreIsOutcome(job, host, Outcomes(r.phase).value.outcome.consolidatedAt);
  }
}
