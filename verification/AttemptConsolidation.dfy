/**
 * Consolidation of a submitted attempt: compute the outcome from the frozen action
 * log, record the scored response, then complete the attempt with a guarded
 * UPDATE; first as one uninterrupted call, then with any number of racing callers,
 * statement by statement.
 */
module AttemptConsolidation {
  import opened Prelude
  import opened EngineRuntime
  import opened EngineReplay
  import opened AttemptLifecycle

  datatype ResponseKey = ResponseKey(attemptId: string, itemId: string)

  datatype Response = Response(tenantId: string, evidence: string, correctness: Correctness, validatorVersion: string)

  datatype Dispatch<!C, !S, !A> = Dispatch(engine: Engine<C, S, A>, rawConfig: string)

  /** What every caller of one consolidation works from; `actions` is the frozen log in order. */
  datatype Job<!C, !S, !A> = Job(
    attemptId: string,
    tenantId: string,
    contentId: string,
    dispatch: Option<Dispatch<C, S, A>>,
    actions: seq<A>)

  datatype Score = Score(correctness: Correctness, value: nat, evidence: string, validatorVersion: string)

  /** The replayed log's evaluation, or None when there is no engine, no valid config, or no evaluation. */
  function ScoreOf<C, S, A>(job: Job<C, S, A>): Option<Score> {
    if job.dispatch.None? then None
    else
      var e := job.dispatch.value.engine;
      var config := e.validateConfig(job.dispatch.value.rawConfig);
      if config.None? then None
      else match e.evaluate(Fold(e, config.value, e.initState(config.value), job.actions), config.value)
        case NotEvaluated(_) => None
        case Evaluated(correctness, score, evidence) =>
          Some(Score(correctness, score, evidence, e.runtimeAdapterId + "@" + e.engineVersion))
  }

  function OutcomeAt<C, S, A>(job: Job<C, S, A>, clock: int): Outcome {
    Outcome(job.attemptId, if ScoreOf(job).Some? then Some(ScoreOf(job).value.value) else None, clock)
  }

  function ResponseFor(tenantId: string, s: Score): Response {
    Response(tenantId, s.evidence, s.correctness, s.validatorVersion)
  }

  function KeyOf<C, S, A>(job: Job<C, S, A>): ResponseKey {
    ResponseKey(job.attemptId, job.contentId)
  }

  // ---------------------------------------------------------------- what is stored, in the engine's terms

  /** What the engine says of the replayed log, if there is an engine and it accepts the configuration. */
  function Replayed<C, S, A>(job: Job<C, S, A>): Option<EvaluationResult> {
    match job.dispatch
    case None => None
    case Some(d) =>
      match d.engine.validateConfig(d.rawConfig)
      case None => None
      case Some(config) =>
        Some(d.engine.evaluate(Fold(d.engine, config, d.engine.initState(config), job.actions), config))
  }

  /** A response row repeats the evaluation: its correctness, its evidence, and which validator it was. */
  predicate RowTells<C, S, A>(job: Job<C, S, A>, row: Option<Response>) {
    if Replayed(job).Some? && Replayed(job).value.Evaluated? then
      && row.Some?
      && row.value.tenantId == job.tenantId
      && row.value.correctness == Replayed(job).value.correctness
      && row.value.evidence == Replayed(job).value.evidence
      && row.value.validatorVersion ==
           job.dispatch.value.engine.runtimeAdapterId + "@" + job.dispatch.value.engine.engineVersion
    else row.None?
  }

  /** An outcome names its attempt and carries the evaluation's score, or none without an evaluation. */
  predicate OutcomeTells<C, S, A>(job: Job<C, S, A>, outcome: Outcome) {
    && outcome.attemptId == job.attemptId
    && outcome.score == if Replayed(job).Some? && Replayed(job).value.Evaluated?
                        then Some(Replayed(job).value.score) else None
  }

  lemma StoredTellsEvaluation<C, S, A>(job: Job<C, S, A>, clock: int)
    ensures RowTells(job, if ScoreOf(job).Some? then Some(ResponseFor(job.tenantId, ScoreOf(job).value)) else None)
    ensures OutcomeTells(job, OutcomeAt(job, clock)) && OutcomeAt(job, clock).consolidatedAt == clock
  {
  }

  // ---------------------------------------------------------------- one uninterrupted call

  class AttemptResponseRepository {
    var rows: map<ResponseKey, Response>

    constructor ()
      ensures rows == map[]
    {
      rows := map[];
    }

    /**
     * INSERT ... ON CONFLICT DO NOTHING. A conflicting row is left alone before the foreign key is
     * looked at; `owned` says whether (attempt_id, tenant_id) references an attempt.
     */
    method InsertUnlessPresent(key: ResponseKey, response: Response, owned: bool)
      returns (inserted: Result<bool, ResponseError>)
      modifies this
      ensures inserted == if key in old(rows) then Ok(false) else if owned then Ok(true) else Err(NoSuchAttempt)
      ensures rows == if inserted == Ok(true) then old(rows)[key := response] else old(rows)
    {
      if key in rows {
        return Ok(false);
      }
      if !owned {
        return Err(NoSuchAttempt);
      }
      rows := rows[key := response];
      return Ok(true);
    }

    method FindExisting(key: ResponseKey, tenantId: string) returns (found: Result<Response, ResponseError>)
      ensures found == if key in rows && rows[key].tenantId == tenantId then Ok(rows[key]) else Err(RowMissing)
    {
      found := if key in rows && rows[key].tenantId == tenantId then Ok(rows[key]) else Err(RowMissing);
    }

    /** `others` is whatever other callers insert between the two statements. */
    method Insert(key: ResponseKey, response: Response, owned: bool, others: map<ResponseKey, Response>)
      returns (stored: Result<Response, ResponseError>)
      modifies this
      ensures key !in old(rows) && owned ==> stored == Ok(response) && rows == old(rows)[key := response]
      ensures key !in old(rows) && !owned ==> stored == Err(NoSuchAttempt) && rows == old(rows)
      ensures key in old(rows) ==>
        && rows == others + old(rows)
        && stored == if old(rows)[key].tenantId == response.tenantId then Ok(old(rows)[key]) else Err(RowMissing)
    {
      var inserted := InsertUnlessPresent(key, response, owned);
      match inserted {
        case Err(e) => return Err(e);
        case Ok(true) => return Ok(response);
        case Ok(false) =>
          rows := others + rows;
          stored := FindExisting(key, response.tenantId);
      }
    }
  }

  datatype ResponseError = NoSuchAttempt | RowMissing

  datatype ServiceError = NotSubmitted | ResponseMissing | ForeignKey

  datatype ServiceResult =
    | ConsolidatedBy(outcome: Outcome)
    | DuplicateOf(stored: Option<Outcome>)
    | Throws(error: ServiceError)

  class AttemptConsolidationService {
    const attempts: LearningAttemptRepository
    const responses: AttemptResponseRepository

    constructor (attempts: LearningAttemptRepository, responses: AttemptResponseRepository)
      ensures this.attempts == attempts && this.responses == responses
    {
      this.attempts := attempts;
      this.responses := responses;
    }

    method ComputeScore<C, S, A>(job: Job<C, S, A>) returns (score: Option<Score>)
      ensures score == ScoreOf(job)
    {
      score := None;
      if job.dispatch.Some? {
        var e := job.dispatch.value.engine;
        var config := e.validateConfig(job.dispatch.value.rawConfig);
        if config.Some? {
          var replayed := ReplayActions(e, config.value, job.actions);
          var evaluation := e.evaluate(replayed.state, config.value);
          if evaluation.Evaluated? {
            score := Some(Score(evaluation.correctness, evaluation.score, evaluation.evidence,
                                e.runtimeAdapterId + "@" + e.engineVersion));
          }
        }
      }
    }

    /** Foreign key: every response belongs to an attempt of its tenant. */
    ghost predicate Valid()
      reads this, attempts, responses
    {
      && attempts.Valid()
      && forall k :: k in responses.rows ==> attempts.Owns(k.attemptId, responses.rows[k].tenantId)
    }

    /**
     * It consolidates exactly from COMPLETION_SUBMITTED, repeats the stored outcome
     * from COMPLETED, and throws otherwise, also for an attempt that is not the tenant's; but
     * on the tenant's own attempt the scored response is written in every case.
     */
    method Consolidate<C, S, A>(job: Job<C, S, A>, clock: int, now: int) returns (r: ServiceResult)
      requires Valid()
      modifies attempts, responses
      ensures Valid()
      ensures !old(attempts.Owns(job.attemptId, job.tenantId)) ==>
        r.Throws? && attempts.rows == old(attempts.rows) && responses.rows == old(responses.rows)
      ensures old(attempts.Owns(job.attemptId, job.tenantId)) ==>
        var before := old(attempts.rows)[job.attemptId];
        && (before.state == CompletionSubmitted ==> r == ConsolidatedBy(OutcomeAt(job, clock)))
        && (before.state == Completed ==> r == DuplicateOf(before.outcome))
        && (before.state !in {CompletionSubmitted, Completed} ==> r == Throws(NotSubmitted))
        && attempts.rows ==
             old(attempts.rows)[job.attemptId := Transitioned(before, Transition.Consolidate(OutcomeAt(job, clock), now))]
        && responses.rows ==
             (if ScoreOf(job).Some? && KeyOf(job) !in old(responses.rows)
              then old(responses.rows)[KeyOf(job) := ResponseFor(job.tenantId, ScoreOf(job).value)]
              else old(responses.rows))
        && (r.ConsolidatedBy? ==> OutcomeTells(job, r.outcome) && attempts.rows[job.attemptId].outcome == Some(r.outcome))
        && var key := ResponseKey(job.attemptId, job.contentId);
           key !in old(responses.rows) ==>
             RowTells(job, if key in responses.rows then Some(responses.rows[key]) else None)
    {
      var outcome, failure := ComputeOutcome(job, clock);
      if failure.Some? {
        return Throws(failure.value);
      }
      r := CompleteAttempt(job.attemptId, job.tenantId, outcome, now);
    }

    /** The outcome, and the scored response written; a failure is what the database refuses. */
    method ComputeOutcome<C, S, A>(job: Job<C, S, A>, clock: int) returns (outcome: Outcome, failure: Option<ServiceError>)
      requires Valid()
      modifies responses
      ensures Valid()
      ensures outcome == OutcomeAt(job, clock)
      ensures attempts.Owns(job.attemptId, job.tenantId) ==>
        && failure.None?
        && responses.rows ==
             (if ScoreOf(job).Some? && KeyOf(job) !in old(responses.rows)
              then old(responses.rows)[KeyOf(job) := ResponseFor(job.tenantId, ScoreOf(job).value)]
              else old(responses.rows))
      ensures !attempts.Owns(job.attemptId, job.tenantId) ==>
        (failure.Some? <==> ScoreOf(job).Some?) && responses.rows == old(responses.rows)
      ensures OutcomeTells(job, outcome) && outcome.consolidatedAt == clock
      ensures var key := ResponseKey(job.attemptId, job.contentId);
              attempts.Owns(job.attemptId, job.tenantId) && key !in old(responses.rows) ==>
                RowTells(job, if key in responses.rows then Some(responses.rows[key]) else None)
    {
      StoredTellsEvaluation(job, clock);
      var score := ComputeScore(job);
      outcome := Outcome(job.attemptId, if score.Some? then Some(score.value.value) else None, clock);
      failure := None;
      if score.Some? {
        var owned := job.attemptId in attempts.rows && attempts.rows[job.attemptId].identity.tenantId == job.tenantId;
        var stored := responses.Insert(KeyOf(job), ResponseFor(job.tenantId, score.value), owned, map[]);
        assert map[] + old(responses.rows) == old(responses.rows);
        if stored.Err? {
          failure := Some(if stored.error == NoSuchAttempt then ForeignKey else ResponseMissing);
        }
      }
    }

    /** The guarded UPDATE, and what is answered when it does not fire. */
    method CompleteAttempt(attemptId: string, tenantId: string, outcome: Outcome, now: int) returns (r: ServiceResult)
      requires Valid()
      modifies attempts
      ensures Valid()
      ensures !old(attempts.Owns(attemptId, tenantId)) ==>
        r == Throws(NotSubmitted) && attempts.rows == old(attempts.rows)
      ensures old(attempts.Owns(attemptId, tenantId)) ==>
        var before := old(attempts.rows)[attemptId];
        && (before.state == CompletionSubmitted ==> r == ConsolidatedBy(outcome))
        && (before.state == Completed ==> r == DuplicateOf(before.outcome))
        && (before.state !in {CompletionSubmitted, Completed} ==> r == Throws(NotSubmitted))
        && attempts.rows == old(attempts.rows)[attemptId := Transitioned(before, Transition.Consolidate(outcome, now))]
    {
      var consolidated := attempts.ConsolidateAttempt(attemptId, tenantId, outcome, now);
      if consolidated.Some? {
        return ConsolidatedBy(outcome);
      }
      var current := attempts.FindByIdAndTenant(attemptId, tenantId);
      if current.Some? && current.value.state == Completed {
        return DuplicateOf(current.value.outcome);
      }
      return Throws(NotSubmitted);
    }
  }

  // ---------------------------------------------------------------- racing callers

  /** Where one caller stands between two statements. */
  datatype Caller =
    | Ready
    | ReadsExisting(outcome: Outcome)
    | Prepared(outcome: Outcome)
    | Rereads
    | Finished(result: ServiceResult)

  datatype World = World(attempt: Attempt, response: Option<Response>, callers: seq<Caller>)

  /** A caller's next statement, or some other request's lifecycle call on the same attempt. */
  datatype Event =
    | Turn(caller: nat, clock: int)
    | Other(transition: Transition)

  function CallerStep<C, S, A>(job: Job<C, S, A>, w: World, c: Caller, clock: int): (World, Caller) {
    match c
    case Ready =>
      var outcome := OutcomeAt(job, clock);
      if ScoreOf(job).None? then (w, Prepared(outcome))
      else if w.response.None? then
        (w.(response := Some(ResponseFor(job.tenantId, ScoreOf(job).value))), Prepared(outcome))
      else (w, ReadsExisting(outcome))
    case ReadsExisting(outcome) =>
      if w.response.Some? && w.response.value.tenantId == job.tenantId then (w, Prepared(outcome))
      else (w, Finished(Throws(ResponseMissing)))
    case Prepared(outcome) =>
      var t := Transition.Consolidate(outcome, clock);
      if Fires(w.attempt, t) then
        (w.(attempt := Written(w.attempt, t)), Finished(ConsolidatedBy(outcome)))
      else (w, Rereads)
    case Rereads =>
      if w.attempt.state == Completed then (w, Finished(DuplicateOf(w.attempt.outcome)))
      else (w, Finished(Throws(NotSubmitted)))
    case Finished(_) => (w, c)
  }

  /** Consolidation is what the callers do; the others only move the attempt. */
  function Step<C, S, A>(job: Job<C, S, A>, w: World, e: Event): World {
    match e
    case Turn(i, clock) =>
      if i >= |w.callers| then w
      else
        var (next, caller) := CallerStep(job, w, w.callers[i], clock);
        next.(callers := w.callers[i := caller])
    case Other(t) => if t.Consolidate? then w else w.(attempt := Transitioned(w.attempt, t))
  }

  function Run<C, S, A>(job: Job<C, S, A>, w: World, events: seq<Event>): World {
    if |events| == 0 then w else Step(job, Run(job, w, Front(events)), Last(events))
  }

  /** A submitted attempt before anybody starts; a response may be left from a call that died. */
  ghost predicate Begins<C, S, A>(job: Job<C, S, A>, w: World) {
    && w.attempt.state == CompletionSubmitted
    && LifecycleCheck(w.attempt)
    && ResponseFits(job, w.response)
    && forall i :: 0 <= i < |w.callers| ==> w.callers[i] == Ready
  }

  /** A stored response is the evaluation of the replayed log. */
  predicate ResponseFits<C, S, A>(job: Job<C, S, A>, response: Option<Response>) {
    response.Some? ==> ScoreOf(job).Some? && response.value == ResponseFor(job.tenantId, ScoreOf(job).value)
  }

  /** The outcome's score is the evaluation of the replayed log. */
  predicate OutcomeFits<C, S, A>(job: Job<C, S, A>, outcome: Outcome) {
    outcome == OutcomeAt(job, outcome.consolidatedAt)
  }

  predicate CallerFits<C, S, A>(job: Job<C, S, A>, attempt: Attempt, response: Option<Response>, c: Caller) {
    match c
    case Ready => true
    case ReadsExisting(outcome) => OutcomeFits(job, outcome) && response.Some?
    case Prepared(outcome) => OutcomeFits(job, outcome) && (ScoreOf(job).Some? ==> response.Some?)
    case Rereads => attempt.state == Completed
    case Finished(ConsolidatedBy(outcome)) => attempt.outcome == Some(outcome)
    case Finished(DuplicateOf(outcome)) => attempt.state == Completed && outcome == attempt.outcome
    case Finished(Throws(_)) => false
  }

  predicate Wins(c: Caller) {
    c.Finished? && c.result.ConsolidatedBy?
  }

  function Winners(callers: seq<Caller>): nat {
    Count(callers, Wins)
  }

  ghost predicate Sound<C, S, A>(job: Job<C, S, A>, w: World) {
    && w.attempt.state in {CompletionSubmitted, Completed}
    && LifecycleCheck(w.attempt)
    && ResponseFits(job, w.response)
    && (w.attempt.state == Completed ==>
          OutcomeFits(job, w.attempt.outcome.value) && (ScoreOf(job).Some? ==> w.response.Some?))
    && (forall i :: 0 <= i < |w.callers| ==> CallerFits(job, w.attempt, w.response, w.callers[i]))
    && Winners(w.callers) == if w.attempt.state == Completed then 1 else 0
  }

  lemma {:induction false} CountAfterUpdate(callers: seq<Caller>, i: nat, c: Caller)
    requires i < |callers|
    ensures Winners(callers[i := c]) + (if Wins(callers[i]) then 1 else 0) ==
            Winners(callers) + (if Wins(c) then 1 else 0)
  {
    var updated := callers[i := c];
    if i == |callers| - 1 {
      assert Front(updated) == Front(callers);
    } else {
      CountAfterUpdate(Front(callers), i, c);
      assert Front(updated) == Front(callers)[i := c] && Last(updated) == Last(callers);
    }
  }

  lemma {:induction false} NobodyHasWon(callers: seq<Caller>)
    requires forall i :: 0 <= i < |callers| ==> !Wins(callers[i])
    ensures Winners(callers) == 0
  {
    if |callers| > 0 {
      assert Last(callers) == callers[|callers| - 1];
      NobodyHasWon(Front(callers));
    }
  }

  lemma StepKeepsSound<C, S, A>(job: Job<C, S, A>, w: World, e: Event)
    requires Sound(job, w)
    ensures Sound(job, Step(job, w, e))
  {
    if e.Turn? && e.caller < |w.callers| {
      var (next, caller) := CallerStep(job, w, w.callers[e.caller], e.clock);
      CountAfterUpdate(w.callers, e.caller, caller);
      assert CallerFits(job, w.attempt, w.response, w.callers[e.caller]);
      assert CallerFits(job, next.attempt, next.response, caller);
      forall i | 0 <= i < |w.callers| && i != e.caller
        ensures CallerFits(job, next.attempt, next.response, w.callers[i])
      {
        assert CallerFits(job, w.attempt, w.response, w.callers[i]);
      }
    }
  }

  lemma {:induction false} EveryRunIsSound<C, S, A>(job: Job<C, S, A>, w: World, events: seq<Event>)
    requires Begins(job, w)
    ensures Sound(job, Run(job, w, events))
    ensures |Run(job, w, events).callers| == |w.callers|
    ensures Run(job, w, events).response.Some? ==> RowTells(job, Run(job, w, events).response)
    ensures Run(job, w, events).attempt.outcome.Some? ==> OutcomeTells(job, Run(job, w, events).attempt.outcome.value)
  {
    StoredTellsEvaluation(job, 0);
    if |events| == 0 {
      NobodyHasWon(w.callers);
    } else {
      EveryRunIsSound(job, w, Front(events));
      StepKeepsSound(job, Run(job, w, Front(events)), Last(events));
    }
  }

  // ---------------------------------------------------------------- the race as a whole

  /** Statements a caller still has to run, at most. */
  function Ahead(c: Caller): nat {
    match c
    case Ready => 4
    case ReadsExisting(_) => 3
    case Prepared(_) => 2
    case Rereads => 1
    case Finished(_) => 0
  }

  /** How many turns a schedule gives to caller `i`. */
  function Turns(events: seq<Event>, i: nat): nat {
    Count(events, (e: Event) => e.Turn? && e.caller == i)
  }

  /** Four turns finish any caller, whatever happens in between. */
  lemma {:induction false} FourTurnsFinish<C, S, A>(job: Job<C, S, A>, w: World, events: seq<Event>, i: nat)
    requires i < |w.callers|
    ensures |Run(job, w, events).callers| == |w.callers|
    ensures Ahead(Run(job, w, events).callers[i]) <= Max(0, Ahead(w.callers[i]) - Turns(events, i))
  {
    if |events| > 0 {
      FourTurnsFinish(job, w, Front(events), i);
    }
  }

  lemma {:induction false} SomeoneWon(callers: seq<Caller>) returns (winner: nat)
    requires Winners(callers) == 1
    ensures winner < |callers| && Wins(callers[winner])
    ensures forall i :: 0 <= i < |callers| && Wins(callers[i]) ==> i == winner
  {
    if Wins(Last(callers)) {
      winner := |callers| - 1;
      assert Winners(Front(callers)) == 0;
      NoneWon(Front(callers));
      assert forall i :: 0 <= i < winner ==> callers[i] == Front(callers)[i];
    } else {
      winner := SomeoneWon(Front(callers));
      assert forall i :: 0 <= i < |callers| - 1 ==> callers[i] == Front(callers)[i];
    }
  }

  ghost predicate AllFinished(w: World) {
    forall i :: 0 <= i < |w.callers| ==> w.callers[i].Finished?
  }

  lemma {:induction false} NoneWon(callers: seq<Caller>)
    requires Winners(callers) == 0
    ensures forall i :: 0 <= i < |callers| ==> !Wins(callers[i])
  {
    if |callers| > 0 {
      NoneWon(Front(callers));
      assert callers == Front(callers) + [Last(callers)];
    }
  }

  /**
   * In every interleaving of any number of racing callers of one submitted attempt,
   * once all of them are done exactly one has consolidated it; every other one
   * reports a duplicate of the stored outcome; none has thrown; and the one stored
   * response and the stored score are both the evaluation of the replayed log.
   */
  lemma ExactlyOneCallerConsolidates<C, S, A>(job: Job<C, S, A>, w: World, events: seq<Event>) returns (winner: nat)
    requires Begins(job, w) && |w.callers| > 0
    requires AllFinished(Run(job, w, events))
    ensures var end := Run(job, w, events);
            && end.attempt.state == Completed
            && winner < |end.callers|
            && end.attempt.outcome.Some?
            && end.callers[winner] == Finished(ConsolidatedBy(end.attempt.outcome.value))
            && (forall i :: 0 <= i < |end.callers| && i != winner ==>
                  end.callers[i] == Finished(DuplicateOf(end.attempt.outcome)))
            && OutcomeFits(job, end.attempt.outcome.value)
            && RowTells(job, end.response) && OutcomeTells(job, end.attempt.outcome.value)
  {
    EveryRunIsSound(job, w, events);
    var end := Run(job, w, events);
    assert CallerFits(job, end.attempt, end.response, end.callers[0]);
    assert end.callers[0].Finished?;
    assert end.attempt.state == Completed;
    StoredTellsEvaluation(job, end.attempt.outcome.value.consolidatedAt);
    winner := SomeoneWon(end.callers);
    assert CallerFits(job, end.attempt, end.response, end.callers[winner]);
    forall i | 0 <= i < |end.callers| && i != winner
      ensures end.callers[i] == Finished(DuplicateOf(end.attempt.outcome))
    {
      assert CallerFits(job, end.attempt, end.response, end.callers[i]) && end.callers[i].Finished?;
    }
  }

  /** A schedule that gives every caller four turns settles the race. */
  lemma EnoughTurnsSettleTheRace<C, S, A>(job: Job<C, S, A>, w: World, events: seq<Event>)
    requires Begins(job, w) && |w.callers| > 0
    requires forall i :: 0 <= i < |w.callers| ==> Turns(events, i) >= 4
    ensures Run(job, w, events).attempt.state == Completed
    ensures Winners(Run(job, w, events).callers) == 1
    ensures AllFinished(Run(job, w, events))
  {
    EveryRunIsSound(job, w, events);
    forall i | 0 <= i < |w.callers|
      ensures i < |Run(job, w, events).callers| && Run(job, w, events).callers[i].Finished?
    {
      assert w.callers[i] == Ready;
      FourTurnsFinish(job, w, events, i);
    }
    var _ := ExactlyOneCallerConsolidates(job, w, events);
  }

  /**
   * Started from any other state, a call throws and yet leaves a scored response
   * behind: the response is written before the guarded UPDATE is tried. The row is
   * an orphan exactly when there is a score and the attempt was neither submitted
   * nor completed.
   */
  lemma ThrowingCallLeavesResponse<C, S, A>(job: Job<C, S, A>, attempt: Attempt, clock: int)
    requires LifecycleCheck(attempt)
    ensures var turn := Turn(0, clock);
            var end := Run(job, World(attempt, None, [Ready]), [turn, turn, turn, turn]);
            && |end.callers| == 1
            && (end.callers[0] == Finished(Throws(NotSubmitted)) <==>
                  attempt.state !in {CompletionSubmitted, Completed})
            && (end.response.Some? && end.attempt.outcome.None? <==>
                  ScoreOf(job).Some? && attempt.state !in {CompletionSubmitted, Completed})
  {
    var turn := Turn(0, clock);
    var w0 := World(attempt, None, [Ready]);
    var w1 := Step(job, w0, turn);
    var w2 := Step(job, w1, turn);
    var w3 := Step(job, w2, turn);
    RunOfFour(job, w0, turn);
  }

  lemma RunOfFour<C, S, A>(job: Job<C, S, A>, w: World, e: Event)
    ensures Run(job, w, [e, e, e, e]) == Step(job, Step(job, Step(job, Step(job, w, e), e), e), e)
  {
    assert Front([e, e, e, e]) == [e, e, e] && Front([e, e, e]) == [e, e] && Front([e, e]) == [e] && Front([e]) == [];
    assert Run(job, w, []) == w;
    assert Run(job, w, [e]) == Step(job, w, e);
    assert Run(job, w, [e, e]) == Step(job, Step(job, w, e), e);
    assert Run(job, w, [e, e, e]) == Step(job, Step(job, Step(job, w, e), e), e);
  }
}
