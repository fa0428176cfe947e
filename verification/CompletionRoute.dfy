/**
 * Completing attempts, end to end: any number of completion requests, each running
 * the idempotency protocol, the reconciliation verdict, the guarded transitions and
 * the recording of its answer, interleaved statement by statement, with errors thrown
 * and processes dying anywhere.
 */
module CompletionRoute {
  import opened Prelude
  import IdempotencyRecord
  import opened AttemptLifecycle
  import opened EngineRuntime
  import ActionDelivery
  import Reconciliation

  type Key = IdempotencyRecord.Key

  datatype Reply =
    | Refused
    | Duplicate
    | Conflict
    | Terminal
    | TooSoon
    | NoRecord
    | NeedsReconciliation
    | Consolidates(outcome: Outcome)
    | RepeatsOutcome(stored: Option<Outcome>)
    | Fails
    | Lost

  /** Where a request stands between two statements; `generation` is the one it was granted. */
  datatype Phase =
    | Arrived
    | Found
    | Checked
    | Classifying
    | Granted(generation: nat)
    | Judged(generation: nat, status: PendingStatus)
    | Submitted(generation: nat)
    | Rereading(generation: nat)
    | Replying(generation: nat, reply: Reply)
    | Failing(generation: nat)
    | Answered(reply: Reply)

  /**
   * `attempt` is a position in the attempt table, `claim` the final client sequence claimed;
   * `readAt` is how many rows the action log had when the request read it.
   */
  datatype Request = Request(attempt: nat, key: Key, hash: string, claim: Option<int>, readAt: nat, phase: Phase)

  /** What a client sends: the attempt, the Idempotency-Key header, and the body with its hash. */
  datatype Call = Call(attempt: nat, idempotencyKey: string, hash: string, finalClientSequence: Option<int>)

  /**
   * The attempts that may come to be created, in order, and what evaluating a log gives for
   * a content.
   */
  datatype Setup = Setup(attempts: seq<Identity>, score: (string, seq<SemanticAction>) -> Option<nat>)

  /**
   * `submitter`, `recorded` and `staleFinishes` are history, read by no step: which request
   * submitted an attempt, whose answer a key's record holds, and how many finishes came too late.
   */
  datatype System = System(
    setup: Setup,
    table: IdempotencyRecord.Table,
    attempts: seq<Attempt>,
    log: seq<ActionDelivery.LogEntry<SemanticAction>>,
    requests: seq<Request>,
    submitter: map<nat, nat>,
    recorded: map<Key, nat>,
    staleFinishes: nat)

  datatype Event =
    | CreateAttempt
    | FirstAction(attempt: nat)
    | LogAction(entry: ActionDelivery.LogEntry<SemanticAction>)
    | Turn(request: nat, owned: bool, clock: int, text: string, now: int)
    | Throw(request: nat)
    | Die(request: nat)

  // ---------------------------------------------------------------- keys

  /** The key that the idempotency service builds from the attempt and the header. */
  function KeyOf(identity: Identity, idempotencyKey: string): Key {
    IdempotencyRecord.Key(Some(identity.tenantId), "attempt_completion",
                          identity.assignmentId + ":" + identity.studentProfileId + ":" + idempotencyKey)
  }

  /** A request for an attempt that never exists is refused before it uses a key. */
  function KeyFor(setup: Setup, call: Call): Key {
    if call.attempt < |setup.attempts| then KeyOf(setup.attempts[call.attempt], call.idempotencyKey)
    else IdempotencyRecord.Key(None, "", "")
  }

  lemma SplitAtColon(first1: string, rest1: string, first2: string, rest2: string)
    requires ':' !in first1 && ':' !in first2
    ensures first1 + ":" + rest1 == first2 + ":" + rest2 <==> first1 == first2 && rest1 == rest2
  {
    var k1, k2 := first1 + ":" + rest1, first2 + ":" + rest2;
    if k1 == k2 {
      assert k1[|first1|] == ':' && k2[|first2|] == ':';
      assert forall i :: 0 <= i < |first1| ==> k1[i] == first1[i];
      assert forall i :: 0 <= i < |first2| ==> k2[i] == first2[i];
      assert |first1| == |first2|;
      assert first1 == k1[..|first1|] && rest1 == k1[|first1| + 1..];
      assert first2 == k2[..|first2|] && rest2 == k2[|first2| + 1..];
    }
  }

  /** Ids without colons, such as UUIDs: the key names tenant, assignment, student and header, and not the attempt. */
  lemma KeyNamesEverythingButTheAttempt(x: Identity, k: string, y: Identity, l: string)
    requires ':' !in x.assignmentId && ':' !in x.studentProfileId
    requires ':' !in y.assignmentId && ':' !in y.studentProfileId
    ensures KeyOf(x, k) == KeyOf(y, l) <==>
      x.tenantId == y.tenantId && x.assignmentId == y.assignmentId && x.studentProfileId == y.studentProfileId && k == l
  {
    SplitAtColon(x.studentProfileId, k, y.studentProfileId, l);
    SplitAtColon(x.assignmentId, x.studentProfileId + ":" + k, y.assignmentId, y.studentProfileId + ":" + l);
    assert KeyOf(x, k).scopeKey == x.assignmentId + ":" + (x.studentProfileId + ":" + k);
    assert KeyOf(y, l).scopeKey == y.assignmentId + ":" + (y.studentProfileId + ":" + l);
  }

  // ---------------------------------------------------------------- steps

  function ScopeOf(a: Attempt): Reconciliation.Scope {
    Reconciliation.Scope(a.identity.tenantId, a.identity.assignmentId, a.identity.studentProfileId)
  }

  /** The status to submit with, from the verdict over the student's attempts on the assignment. */
  function StatusFor(attempts: seq<Attempt>, a: Attempt): PendingStatus {
    var verdict := Reconciliation.Evaluate(Reconciliation.FindConcurrent(attempts, ScopeOf(a)));
    if verdict.resolution == Reconciliation.ReconciliationNeeded then ReconciliationRequired else AcceptedNotConsolidated
  }

  function ReplyTo(r: Result<IdempotencyRecord.BeginOutcome, IdempotencyRecord.BeginError>): Reply {
    match r
    case Err(_) => NoRecord
    case Ok(DuplicateSamePayload(_)) => Duplicate
    case Ok(ConflictDifferentPayload) => Conflict
    case Ok(FailedTerminal(_)) => Terminal
    case Ok(_) => TooSoon
  }

  /** Same requests, but for where they stand and what they have read. */
  ghost predicate SameRequests(before: seq<Request>, after: seq<Request>) {
    && |before| == |after|
    && forall i :: 0 <= i < |before| ==> after[i] == before[i].(phase := after[i].phase, readAt := after[i].readAt)
  }

  /** Attempts are created in the given order and keep their identities. */
  ghost predicate IdentitiesFit(sys: System) {
    && |sys.attempts| <= |sys.setup.attempts|
    && forall a :: 0 <= a < |sys.attempts| ==> sys.attempts[a].identity == sys.setup.attempts[a]
  }

  /** What every step keeps: the setup, the requests, the identities; and the log only grows. */
  ghost predicate Continues(sys: System, next: System) {
    && next.setup == sys.setup
    && sys.log <= next.log
    && SameRequests(sys.requests, next.requests)
    && (IdentitiesFit(sys) ==> IdentitiesFit(next))
  }

  /** Only request `i` moves, and it reads the log, if at all, as it is now. */
  ghost predicate OnlyMoves(sys: System, next: System, i: nat)
    requires i < |sys.requests|
  {
    && Continues(sys, next)
    && next.log == sys.log
    && next.requests[i].readAt in {sys.requests[i].readAt, |sys.log|}
    && forall j :: 0 <= j < |sys.requests| && j != i ==> next.requests[j] == sys.requests[j]
  }

  /** The actions that a request has read, in the client's order. */
  function ActionsRead(identity: Identity, log: seq<ActionDelivery.LogEntry<SemanticAction>>, readAt: nat)
    : seq<SemanticAction>
  {
    var seen := log[..Min(readAt, |log|)];
    ActionDelivery.ActionsOf(ActionDelivery.ReadLog(seen, identity.id, identity.tenantId))
  }

  /** The outcome computed from what the request has read. */
  function ComputedOutcome(setup: Setup, identity: Identity, log: seq<ActionDelivery.LogEntry<SemanticAction>>,
                           readAt: nat, clock: int): Outcome
  {
    Outcome(identity.id, setup.score(identity.contentId, ActionsRead(identity, log, readAt)), clock)
  }

  function Read(sys: System, i: nat): (next: System)
    requires i < |sys.requests|
    ensures OnlyMoves(sys, next, i)
  {
    sys.(requests := sys.requests[i := sys.requests[i].(readAt := |sys.log|)])
  }

  function SetPhase(sys: System, i: nat, p: Phase): (next: System)
    requires i < |sys.requests|
    ensures OnlyMoves(sys, next, i)
    ensures next.requests[i].readAt == sys.requests[i].readAt
  {
    sys.(requests := sys.requests[i := sys.requests[i].(phase := p)])
  }

  /** The attempt is looked up; `owned` says whether it is the session's student's. */
  function Find(sys: System, i: nat, owned: bool): (next: System)
    requires i < |sys.requests|
    ensures OnlyMoves(sys, next, i)
    ensures next.requests[i].readAt == sys.requests[i].readAt
  {
    var a := sys.requests[i].attempt;
    if a < |sys.attempts| && sys.attempts[a].state in {InProgress, CompletionSubmitted} && owned
    then SetPhase(sys, i, Found) else SetPhase(sys, i, Answered(Refused))
  }

  /** The claim holds of the first `readAt` rows of the log. */
  predicate ClaimHolds(claim: Option<int>, identity: Identity, log: seq<ActionDelivery.LogEntry<SemanticAction>>,
                       readAt: nat)
  {
    var seen := log[..Min(readAt, |log|)];
    ActionDelivery.CheckFinalClientSequence(claim, ActionDelivery.ReadLog(seen, identity.id, identity.tenantId))
  }

  /** The log is read, and the claim checked against it. */
  function Check(sys: System, i: nat): (next: System)
    requires i < |sys.requests|
    ensures OnlyMoves(sys, next, i)
  {
    var r := sys.requests[i];
    if r.attempt < |sys.attempts| && ClaimHolds(r.claim, sys.attempts[r.attempt].identity, sys.log, |sys.log|)
    then SetPhase(Read(sys, i), i, Checked) else SetPhase(Read(sys, i), i, Answered(Refused))
  }

  function Upsert(sys: System, i: nat, now: int): (next: System)
    requires i < |sys.requests|
    ensures OnlyMoves(sys, next, i)
    ensures next.requests[i].readAt == sys.requests[i].readAt
  {
    var r := sys.requests[i];
    match IdempotencyRecord.UpsertResult(sys.table, r.key, r.hash, now)
    case None => SetPhase(sys, i, Classifying)
    case Some(g) =>
      SetPhase(sys.(table := IdempotencyRecord.AfterUpsert(sys.table, r.key, r.hash, now)), i, Granted(g.generation))
  }

  function Submit(sys: System, i: nat): (next: System)
    requires i < |sys.requests| && sys.requests[i].phase.Judged?
    ensures OnlyMoves(sys, next, i)
    ensures next.requests[i].readAt == sys.requests[i].readAt
  {
    var Judged(g, status) := sys.requests[i].phase;
    var a := sys.requests[i].attempt;
    if a < |sys.attempts| && Fires(sys.attempts[a], ToSubmitted(status)) then
      SetPhase(sys.(attempts := sys.attempts[a := Written(sys.attempts[a], ToSubmitted(status))],
                    submitter := sys.submitter[a := i]),
               i, if status == ReconciliationRequired then Replying(g, NeedsReconciliation) else Submitted(g))
    else SetPhase(sys, i, Failing(g))
  }

  function ConsolidateAttempt(sys: System, i: nat, outcome: Outcome, now: int): (next: System)
    requires i < |sys.requests| && sys.requests[i].phase.Submitted?
    ensures OnlyMoves(sys, next, i)
    ensures next.requests[i].readAt == sys.requests[i].readAt
  {
    var g := sys.requests[i].phase.generation;
    var a := sys.requests[i].attempt;
    var t := Transition.Consolidate(outcome, now);
    if a < |sys.attempts| && Fires(sys.attempts[a], t) then
      SetPhase(sys.(attempts := sys.attempts[a := Written(sys.attempts[a], t)]), i, Replying(g, Consolidates(outcome)))
    else SetPhase(sys, i, Rereading(g))
  }

  function Reread(sys: System, i: nat): (next: System)
    requires i < |sys.requests| && sys.requests[i].phase.Rereading?
    ensures OnlyMoves(sys, next, i)
    ensures next.requests[i].readAt == sys.requests[i].readAt
  {
    var g := sys.requests[i].phase.generation;
    var a := sys.requests[i].attempt;
    if a < |sys.attempts| && sys.attempts[a].state == Completed
    then SetPhase(sys, i, Replying(g, RepeatsOutcome(sys.attempts[a].outcome)))
    else SetPhase(sys, i, Failing(g))
  }

  function FinishRequest(sys: System, i: nat, f: IdempotencyRecord.Finish, reply: Reply, now: int): (next: System)
    requires i < |sys.requests| && Holds(sys.requests[i])
    ensures OnlyMoves(sys, next, i)
    ensures next.requests[i].readAt == sys.requests[i].readAt
  {
    var k, g := sys.requests[i].key, sys.requests[i].phase.generation;
    var current := IdempotencyRecord.MayFinish(sys.table, k, g);
    SetPhase(sys.(table := IdempotencyRecord.AfterFinish(sys.table, k, g, f, now),
                  recorded := if current && f.CompleteWith? then sys.recorded[k := i] else sys.recorded,
                  staleFinishes := sys.staleFinishes + if current then 0 else 1),
             i, Answered(reply))
  }

  /** The request owns a granted generation. */
  predicate Holds(r: Request) {
    !r.phase.Arrived? && !r.phase.Found? && !r.phase.Checked? && !r.phase.Classifying? && !r.phase.Answered?
  }

  function TakeTurn(sys: System, e: Event): (next: System)
    requires e.Turn? && e.request < |sys.requests|
    ensures OnlyMoves(sys, next, e.request)
    ensures !sys.requests[e.request].phase.Found? ==> next.requests[e.request].readAt == sys.requests[e.request].readAt
  {
    var i, r := e.request, sys.requests[e.request];
    match r.phase
    case Arrived => Find(sys, i, e.owned)
    case Found => Check(sys, i)
    case Checked => Upsert(sys, i, e.now)
    case Classifying => SetPhase(sys, i, Answered(ReplyTo(IdempotencyRecord.Classify(sys.table, r.key, r.hash, e.now))))
    case Granted(g) =>
      if r.attempt < |sys.attempts| then SetPhase(sys, i, Judged(g, StatusFor(sys.attempts, sys.attempts[r.attempt])))
      else SetPhase(sys, i, Failing(g))
    case Judged(_, _) => Submit(sys, i)
    case Submitted(g) =>
      if r.attempt < |sys.attempts| then
        var outcome := ComputedOutcome(sys.setup, sys.attempts[r.attempt].identity, sys.log, r.readAt, e.clock);
        ConsolidateAttempt(sys, i, outcome, e.now)
      else SetPhase(sys, i, Failing(g))
    case Rereading(_) => Reread(sys, i)
    case Replying(_, reply) => FinishRequest(sys, i, IdempotencyRecord.CompleteWith(e.text), reply, e.now)
    case Failing(_) => FinishRequest(sys, i, IdempotencyRecord.FailWith(true, e.text), Fails, e.now)
    case Answered(_) => sys
  }

  function Step(sys: System, e: Event): (next: System)
    ensures Continues(sys, next)
  {
    match e
    case CreateAttempt =>
      if |sys.attempts| < |sys.setup.attempts|
      then sys.(attempts := sys.attempts + [NewAttempt(sys.setup.attempts[|sys.attempts|])]) else sys
    case FirstAction(a) =>
      if a < |sys.attempts| then sys.(attempts := sys.attempts[a := Transitioned(sys.attempts[a], ToInProgress)]) else sys
    case LogAction(entry) => sys.(log := ActionDelivery.AfterInsert(sys.log, entry))
    case Turn(i, _, _, _, _) => if i < |sys.requests| then TakeTurn(sys, e) else sys
    case Throw(i) =>
      if i < |sys.requests| && Holds(sys.requests[i])
      then SetPhase(sys, i, Failing(sys.requests[i].phase.generation)) else sys
    case Die(i) =>
      if i < |sys.requests| && !sys.requests[i].phase.Answered? then SetPhase(sys, i, Answered(Lost)) else sys
  }

  /** Nothing stored, every request about to start. */
  function Initial(setup: Setup, calls: seq<Call>): System {
    var requests := seq(|calls|, i requires 0 <= i < |calls| =>
      Request(calls[i].attempt, KeyFor(setup, calls[i]), calls[i].hash, calls[i].finalClientSequence, 0, Arrived));
    System(setup, map[], [], [], requests, map[], map[], 0)
  }

  function Run(sys: System, events: seq<Event>): System {
    if |events| == 0 then sys else Step(Run(sys, Front(events)), Last(events))
  }

  // ---------------------------------------------------------------- the invariant

  /** The answer that a phase has or is about to record. */
  function Outcomes(p: Phase): Option<Reply> {
    match p
    case Replying(_, reply) => Some(reply)
    case Answered(reply) => Some(reply)
    case _ => None
  }

  predicate Succeeds(p: Phase) {
    Outcomes(p).Some? && (Outcomes(p).value.NeedsReconciliation? || Outcomes(p).value.Consolidates?)
  }

  /** What a request's phase says of its key's record. */
  predicate KeyFits(table: IdempotencyRecord.Table, recorded: map<Key, nat>, r: Request) {
    && (Holds(r) ==>
          && r.key in table && table[r.key].status == IdempotencyRecord.Pending
          && table[r.key].generation == r.phase.generation && table[r.key].requestHash == r.hash)
    && (r.phase.Classifying? ==> r.key in table)
    && (r.phase == Answered(Duplicate) ==>
          r.key in recorded && r.key in table && table[r.key].requestHash == r.hash)
    && Outcomes(r.phase) != Some(NoRecord)
  }

  /** The attempt was found when the request came in. */
  predicate WasAdmitted(p: Phase) {
    !p.Arrived? && p != Answered(Refused) && p != Answered(Lost)
  }

  /** What a request's phase says of its attempt; `i` is the request's own number. */
  predicate AttemptFits(attempts: seq<Attempt>, submitter: map<nat, nat>, i: nat, r: Request) {
    && (WasAdmitted(r.phase) ==> r.attempt < |attempts|)
    && (r.phase.Submitted? || Succeeds(r.phase) ==>
          && r.attempt < |attempts| && r.attempt in submitter && submitter[r.attempt] == i)
    && (r.phase.Submitted? ==>
          attempts[r.attempt].state == CompletionSubmitted
          && attempts[r.attempt].completionStatus == Some(AcceptedNotConsolidated))
    && (Outcomes(r.phase) == Some(NeedsReconciliation) ==>
          attempts[r.attempt].completionStatus == Some(ReconciliationRequired))
    && (Outcomes(r.phase).Some? && Outcomes(r.phase).value.Consolidates? ==>
          attempts[r.attempt].state == Completed
          && attempts[r.attempt].outcome == Some(Outcomes(r.phase).value.outcome))
    && !r.phase.Rereading?
    && (r.phase.Replying? ==> Succeeds(r.phase))
    && !(Outcomes(r.phase).Some? && Outcomes(r.phase).value.RepeatsOutcome?)
  }

  ghost predicate AttemptsFit(attempts: seq<Attempt>, requests: seq<Request>, submitter: map<nat, nat>) {
    && (forall a :: 0 <= a < |attempts| ==>
          && LifecycleCheck(attempts[a])
          && (attempts[a].state in {CompletionSubmitted, Completed} <==> a in submitter))
    && (forall a :: a in submitter ==>
          a < |attempts| && submitter[a] < |requests| && requests[submitter[a]].attempt == a)
    && forall i :: 0 <= i < |requests| ==> AttemptFits(attempts, submitter, i, requests[i])
  }

  ghost predicate OneHolderPerKey(requests: seq<Request>) {
    forall i, j :: 0 <= i < j < |requests| && Holds(requests[i]) && Holds(requests[j]) ==>
      requests[i].key != requests[j].key
  }

  ghost predicate KeysFit(table: IdempotencyRecord.Table, requests: seq<Request>, recorded: map<Key, nat>) {
    && (forall i :: 0 <= i < |requests| ==> KeyFits(table, recorded, requests[i]))
    && OneHolderPerKey(requests)
    && (forall k :: k in table && table[k].status == IdempotencyRecord.Completed <==> k in recorded)
    && forall k :: k in recorded ==>
         && recorded[k] < |requests|
         && var r := requests[recorded[k]];
            r.key == k && r.hash == table[k].requestHash && r.phase.Answered? && Succeeds(r.phase)
  }

  ghost predicate Good(sys: System) {
    && AttemptsFit(sys.attempts, sys.requests, sys.submitter)
    && KeysFit(sys.table, sys.requests, sys.recorded)
    && sys.staleFinishes == 0
  }

  // ---------------------------------------------------------------- steps keep it

  /** Changing one request to a phase that fits, while attempts and submitters stay. */
  lemma PhaseKeepsAttempts(attempts: seq<Attempt>, requests: seq<Request>, submitter: map<nat, nat>, i: nat, p: Phase)
    requires AttemptsFit(attempts, requests, submitter) && i < |requests|
    requires AttemptFits(attempts, submitter, i, requests[i].(phase := p))
    ensures AttemptsFit(attempts, requests[i := requests[i].(phase := p)], submitter) {
  }

  /** The same for the keys: the phase neither takes a key nor drops a recorded answer. */
  lemma PhaseKeepsKeys(table: IdempotencyRecord.Table, requests: seq<Request>, recorded: map<Key, nat>, i: nat, p: Phase)
    requires KeysFit(table, requests, recorded) && i < |requests|
    requires !requests[i].phase.Answered?
    requires Holds(requests[i].(phase := p)) ==> Holds(requests[i])
    requires KeyFits(table, recorded, requests[i].(phase := p))
    ensures KeysFit(table, requests[i := requests[i].(phase := p)], recorded)
  {
  }

  lemma PhaseKeepsGood(sys: System, i: nat, p: Phase)
    requires Good(sys) && i < |sys.requests| && !sys.requests[i].phase.Answered?
    requires AttemptFits(sys.attempts, sys.submitter, i, sys.requests[i].(phase := p))
    requires Holds(sys.requests[i].(phase := p)) ==> Holds(sys.requests[i])
    requires KeyFits(sys.table, sys.recorded, sys.requests[i].(phase := p))
    ensures Good(SetPhase(sys, i, p))
  {
    PhaseKeepsAttempts(sys.attempts, sys.requests, sys.submitter, i, p);
    PhaseKeepsKeys(sys.table, sys.requests, sys.recorded, i, p);
  }

  lemma ReadKeepsGood(sys: System, i: nat)
    requires Good(sys) && i < |sys.requests|
    ensures Good(Read(sys, i))
  {
    var next := Read(sys, i);
    forall j | 0 <= j < |next.requests| ensures AttemptFits(next.attempts, next.submitter, j, next.requests[j]) {
      assert AttemptFits(sys.attempts, sys.submitter, j, sys.requests[j]);
    }
    forall j | 0 <= j < |next.requests| ensures KeyFits(next.table, next.recorded, next.requests[j]) {
      assert KeyFits(sys.table, sys.recorded, sys.requests[j]);
    }
  }

  lemma FindKeepsGood(sys: System, i: nat, owned: bool)
    requires Good(sys) && i < |sys.requests| && sys.requests[i].phase.Arrived?
    ensures Good(Find(sys, i, owned))
  {
    PhaseKeepsGood(sys, i, Answered(Refused));
    if sys.requests[i].attempt < |sys.attempts| {
      PhaseKeepsGood(sys, i, Found);
    }
  }

  lemma CheckKeepsGood(sys: System, i: nat)
    requires Good(sys) && i < |sys.requests| && sys.requests[i].phase.Found?
    ensures Good(Check(sys, i))
  {
    assert AttemptFits(sys.attempts, sys.submitter, i, sys.requests[i]);
    ReadKeepsGood(sys, i);
    PhaseKeepsGood(Read(sys, i), i, Answered(Refused));
    PhaseKeepsGood(Read(sys, i), i, Checked);
  }

  lemma UpsertKeepsGood(sys: System, i: nat, now: int)
    requires Good(sys) && i < |sys.requests| && sys.requests[i].phase.Checked?
    ensures Good(Upsert(sys, i, now))
  {
    var r := sys.requests[i];
    match IdempotencyRecord.UpsertResult(sys.table, r.key, r.hash, now) {
      case None => PhaseKeepsGood(sys, i, Classifying);
      case Some(g) =>
        PhaseKeepsAttempts(sys.attempts, sys.requests, sys.submitter, i, Granted(g.generation));
        GrantKeepsKeys(sys.table, sys.requests, sys.recorded, i, now);
    }
  }

  /** A grant finds the key without a holder and without a recorded answer. */
  lemma GrantKeepsKeys(table: IdempotencyRecord.Table, requests: seq<Request>, recorded: map<Key, nat>, i: nat, now: int)
    requires KeysFit(table, requests, recorded) && i < |requests| && requests[i].phase.Checked?
    requires IdempotencyRecord.UpsertResult(table, requests[i].key, requests[i].hash, now).Some?
    ensures var r := requests[i];
            var g := IdempotencyRecord.UpsertResult(table, r.key, r.hash, now).value.generation;
            KeysFit(IdempotencyRecord.AfterUpsert(table, r.key, r.hash, now),
                    requests[i := r.(phase := Granted(g))], recorded)
  {
    var k := requests[i].key;
    assert k !in recorded;
    forall j | 0 <= j < |requests| ensures !(Holds(requests[j]) && requests[j].key == k) {
      assert KeyFits(table, recorded, requests[j]);
    }
  }

  /** Finishing the generation held by request `i` settles its key and touches no other. */
  lemma FinishKeepsKeys(table: IdempotencyRecord.Table, requests: seq<Request>, recorded: map<Key, nat>, i: nat,
                        f: IdempotencyRecord.Finish, reply: Reply, now: int)
    requires KeysFit(table, requests, recorded) && i < |requests| && Holds(requests[i])
    requires f.CompleteWith? ==> Succeeds(Answered(reply))
    requires f.FailWith? ==> reply == Fails
    ensures var r := requests[i];
            && IdempotencyRecord.MayFinish(table, r.key, r.phase.generation)
            && KeysFit(IdempotencyRecord.AfterFinish(table, r.key, r.phase.generation, f, now),
                       requests[i := r.(phase := Answered(reply))],
                       if f.CompleteWith? then recorded[r.key := i] else recorded)
  {
    var r := requests[i];
    assert KeyFits(table, recorded, r);
    var settled := IdempotencyRecord.AfterFinish(table, r.key, r.phase.generation, f, now);
    var answered := requests[i := r.(phase := Answered(reply))];
    var noted := if f.CompleteWith? then recorded[r.key := i] else recorded;
    assert r.key !in recorded;
    forall j | 0 <= j < |answered| ensures KeyFits(settled, noted, answered[j]) {
      assert KeyFits(table, recorded, requests[j]);
      assert j != i && Holds(requests[j]) ==> requests[j].key != r.key;
    }
  }

  lemma FinishKeepsGood(sys: System, i: nat, f: IdempotencyRecord.Finish, reply: Reply, now: int)
    requires Good(sys) && i < |sys.requests| && Holds(sys.requests[i])
    requires f.CompleteWith? ==> sys.requests[i].phase.Replying? && sys.requests[i].phase.reply == reply
    requires f.FailWith? ==> reply == Fails
    ensures Good(FinishRequest(sys, i, f, reply, now))
  {
    assert AttemptFits(sys.attempts, sys.submitter, i, sys.requests[i]);
    FinishKeepsKeys(sys.table, sys.requests, sys.recorded, i, f, reply, now);
    PhaseKeepsAttempts(sys.attempts, sys.requests, sys.submitter, i, Answered(reply));
  }

  /** The phase after a submission that fired. */
  function SubmittedPhase(p: Phase): Phase
    requires p.Judged?
  {
    if p.status == ReconciliationRequired then Replying(p.generation, NeedsReconciliation) else Submitted(p.generation)
  }

  lemma SubmitKeepsAttempts(attempts: seq<Attempt>, requests: seq<Request>, submitter: map<nat, nat>, i: nat)
    requires AttemptsFit(attempts, requests, submitter) && i < |requests| && requests[i].phase.Judged?
    requires var r := requests[i];
             r.attempt < |attempts| && Fires(attempts[r.attempt], ToSubmitted(r.phase.status))
    ensures var r := requests[i];
            AttemptsFit(attempts[r.attempt := Written(attempts[r.attempt], ToSubmitted(r.phase.status))],
                        requests[i := r.(phase := SubmittedPhase(r.phase))], submitter[r.attempt := i])
  {
    var r := requests[i];
    var written := attempts[r.attempt := Written(attempts[r.attempt], ToSubmitted(r.phase.status))];
    var moved := requests[i := r.(phase := SubmittedPhase(r.phase))];
    assert r.attempt !in submitter;
    forall j | 0 <= j < |moved| ensures AttemptFits(written, submitter[r.attempt := i], j, moved[j]) {
      assert AttemptFits(attempts, submitter, j, requests[j]);
    }
  }

  lemma SubmitKeepsGood(sys: System, i: nat)
    requires Good(sys) && i < |sys.requests| && sys.requests[i].phase.Judged?
    ensures Good(Submit(sys, i))
  {
    var r := sys.requests[i];
    assert KeyFits(sys.table, sys.recorded, r);
    assert AttemptFits(sys.attempts, sys.submitter, i, r);
    if Fires(sys.attempts[r.attempt], ToSubmitted(r.phase.status)) {
      PhaseKeepsKeys(sys.table, sys.requests, sys.recorded, i, SubmittedPhase(r.phase));
      SubmitKeepsAttempts(sys.attempts, sys.requests, sys.submitter, i);
    } else {
      PhaseKeepsGood(sys, i, Failing(r.phase.generation));
    }
  }

  lemma ConsolidateKeepsAttempts(attempts: seq<Attempt>, requests: seq<Request>, submitter: map<nat, nat>, i: nat,
                                 outcome: Outcome, now: int)
    requires AttemptsFit(attempts, requests, submitter) && i < |requests| && requests[i].phase.Submitted?
    ensures var r := requests[i];
            && r.attempt < |attempts|
            && Fires(attempts[r.attempt], Transition.Consolidate(outcome, now))
            && AttemptsFit(attempts[r.attempt := Written(attempts[r.attempt], Transition.Consolidate(outcome, now))],
                           requests[i := r.(phase := Replying(r.phase.generation, Consolidates(outcome)))], submitter)
  {
    var r := requests[i];
    assert AttemptFits(attempts, submitter, i, r);
    var completed := attempts[r.attempt := Written(attempts[r.attempt], Transition.Consolidate(outcome, now))];
    var replying := requests[i := r.(phase := Replying(r.phase.generation, Consolidates(outcome)))];
    forall j | 0 <= j < |replying| ensures AttemptFits(completed, submitter, j, replying[j]) {
      assert AttemptFits(attempts, submitter, j, requests[j]);
    }
  }

  lemma ConsolidateKeepsGood(sys: System, i: nat, outcome: Outcome, now: int)
    requires Good(sys) && i < |sys.requests| && sys.requests[i].phase.Submitted?
    ensures Good(ConsolidateAttempt(sys, i, outcome, now))
  {
    ConsolidateKeepsAttempts(sys.attempts, sys.requests, sys.submitter, i, outcome, now);
    assert KeyFits(sys.table, sys.recorded, sys.requests[i]);
    PhaseKeepsKeys(sys.table, sys.requests, sys.recorded, i,
                   Replying(sys.requests[i].phase.generation, Consolidates(outcome)));
  }

  lemma JudgeKeepsGood(sys: System, i: nat, status: PendingStatus)
    requires Good(sys) && i < |sys.requests| && sys.requests[i].phase.Granted?
    ensures Good(SetPhase(sys, i, Judged(sys.requests[i].phase.generation, status)))
  {
    assert KeyFits(sys.table, sys.recorded, sys.requests[i]);
    assert AttemptFits(sys.attempts, sys.submitter, i, sys.requests[i]);
    PhaseKeepsGood(sys, i, Judged(sys.requests[i].phase.generation, status));
  }

  lemma ClassifyKeepsGood(sys: System, i: nat, now: int)
    requires Good(sys) && i < |sys.requests| && sys.requests[i].phase.Classifying?
    ensures var r := sys.requests[i];
            Good(SetPhase(sys, i, Answered(ReplyTo(IdempotencyRecord.Classify(sys.table, r.key, r.hash, now)))))
  {
    var r := sys.requests[i];
    assert KeyFits(sys.table, sys.recorded, r);
    assert AttemptFits(sys.attempts, sys.submitter, i, r);
    PhaseKeepsGood(sys, i, Answered(ReplyTo(IdempotencyRecord.Classify(sys.table, r.key, r.hash, now))));
  }

  lemma TurnKeepsGood(sys: System, e: Event)
    requires Good(sys) && e.Turn? && e.request < |sys.requests|
    ensures Good(TakeTurn(sys, e))
  {
    var i, r := e.request, sys.requests[e.request];
    assert AttemptFits(sys.attempts, sys.submitter, i, r);
    match r.phase {
      case Arrived => FindKeepsGood(sys, i, e.owned);
      case Found => CheckKeepsGood(sys, i);
      case Checked => UpsertKeepsGood(sys, i, e.now);
      case Classifying => ClassifyKeepsGood(sys, i, e.now);
      case Granted(_) => JudgeKeepsGood(sys, i, StatusFor(sys.attempts, sys.attempts[r.attempt]));
      case Judged(_, _) => SubmitKeepsGood(sys, i);
      case Submitted(_) =>
        var outcome := ComputedOutcome(sys.setup, sys.attempts[r.attempt].identity, sys.log, r.readAt, e.clock);
        ConsolidateKeepsGood(sys, i, outcome, e.now);
      case Rereading(_) =>
      case Replying(_, reply) => FinishKeepsGood(sys, i, IdempotencyRecord.CompleteWith(e.text), reply, e.now);
      case Failing(_) => FinishKeepsGood(sys, i, IdempotencyRecord.FailWith(true, e.text), Fails, e.now);
      case Answered(_) =>
    }
  }

  lemma AttemptEventKeepsGood(sys: System, e: Event)
    requires Good(sys) && (e.CreateAttempt? || e.FirstAction? || e.LogAction?)
    ensures Good(Step(sys, e))
  {
    var next := Step(sys, e);
    forall j | 0 <= j < |next.requests|
      ensures AttemptFits(next.attempts, next.submitter, j, next.requests[j])
    {
      assert AttemptFits(sys.attempts, sys.submitter, j, sys.requests[j]);
    }
  }

  lemma StepKeepsGood(sys: System, e: Event)
    requires Good(sys)
    ensures Good(Step(sys, e))
  {
    if e.CreateAttempt? || e.FirstAction? || e.LogAction? {
      AttemptEventKeepsGood(sys, e);
    } else if e.request < |sys.requests| {
      var r := sys.requests[e.request];
      assert KeyFits(sys.table, sys.recorded, r);
      match e {
        case Turn(_, _, _, _, _) => TurnKeepsGood(sys, e);
        case Throw(i) => if Holds(r) { PhaseKeepsGood(sys, i, Failing(r.phase.generation)); }
        case Die(i) => if !r.phase.Answered? { PhaseKeepsGood(sys, i, Answered(Lost)); }
      }
    }
  }

  /** The invariant holds in every interleaving, errors and deaths included. */
  lemma {:induction false} EveryRunIsGood(setup: Setup, calls: seq<Call>, events: seq<Event>)
    ensures Good(Run(Initial(setup, calls), events))
  {
    if |events| > 0 {
      EveryRunIsGood(setup, calls, Front(events));
      StepKeepsGood(Run(Initial(setup, calls), Front(events)), Last(events));
    }
  }

  lemma {:induction false} RunKeepsRequests(setup: Setup, calls: seq<Call>, events: seq<Event>)
    ensures var sys := Run(Initial(setup, calls), events);
            && sys.setup == setup && IdentitiesFit(sys)
            && SameRequests(Initial(setup, calls).requests, sys.requests)
  {
    if |events| > 0 {
      RunKeepsRequests(setup, calls, Front(events));
    }
  }

  // ---------------------------------------------------------------- exactly once

  /**
   * A request that has been granted a generation always settles it: no `complete` and no
   * `fail` issued by the route is ever stale, and the consolidation service's own
   * duplicate answer never comes up.
   */
  lemma NoFinishIsStale(setup: Setup, calls: seq<Call>, events: seq<Event>)
    ensures Run(Initial(setup, calls), events).staleFinishes == 0
    ensures forall r :: r in Run(Initial(setup, calls), events).requests ==>
      !r.phase.Rereading? && !(r.phase.Answered? && r.phase.reply.RepeatsOutcome?)
  {
    EveryRunIsGood(setup, calls, events);
    var sys := Run(Initial(setup, calls), events);
    forall r | r in sys.requests ensures !r.phase.Rereading? && !(r.phase.Answered? && r.phase.reply.RepeatsOutcome?) {
      var i :| 0 <= i < |sys.requests| && sys.requests[i] == r;
      assert AttemptFits(sys.attempts, sys.submitter, i, r);
    }
  }

  /**
   * However many requests compete, with whatever keys and retries, at most one ever answers
   * that it consolidated an attempt or sent it to reconciliation; and the attempt's row says
   * what that answer says.
   */
  lemma OneSuccessPerAttempt(setup: Setup, calls: seq<Call>, events: seq<Event>, i: nat, j: nat)
    requires i < |Run(Initial(setup, calls), events).requests| && j < |Run(Initial(setup, calls), events).requests|
    requires Succeeds(Run(Initial(setup, calls), events).requests[i].phase)
    ensures var sys := Run(Initial(setup, calls), events);
            var r := sys.requests[i];
            && r.attempt < |sys.attempts|
            && (Outcomes(r.phase) == Some(NeedsReconciliation) ==>
                  sys.attempts[r.attempt].completionStatus == Some(ReconciliationRequired)
                  && sys.attempts[r.attempt].outcome == None)
            && (Outcomes(r.phase) != Some(NeedsReconciliation) ==>
                  sys.attempts[r.attempt].state == Completed && sys.attempts[r.attempt].outcome.Some?
                  && Outcomes(r.phase) == Some(Consolidates(sys.attempts[r.attempt].outcome.value)))
            && (Succeeds(sys.requests[j].phase) && sys.requests[j].attempt == r.attempt ==> i == j)
  {
    EveryRunIsGood(setup, calls, events);
    var sys := Run(Initial(setup, calls), events);
    assert AttemptFits(sys.attempts, sys.submitter, i, sys.requests[i]);
    assert AttemptFits(sys.attempts, sys.submitter, j, sys.requests[j]);
    assert LifecycleCheck(sys.attempts[sys.requests[i].attempt]);
  }

  /** Each attempt is recorded under one idempotency key at most. */
  lemma RecordedUnderOneKey(setup: Setup, calls: seq<Call>, events: seq<Event>, k: Key, l: Key)
    requires var sys := Run(Initial(setup, calls), events);
             && k in sys.table && sys.table[k].status == IdempotencyRecord.Completed
             && l in sys.table && sys.table[l].status == IdempotencyRecord.Completed
    ensures var sys := Run(Initial(setup, calls), events);
            && k in sys.recorded && l in sys.recorded
            && sys.recorded[k] < |sys.requests| && sys.recorded[l] < |sys.requests|
            && (sys.requests[sys.recorded[k]].attempt == sys.requests[sys.recorded[l]].attempt ==> k == l)
  {
    EveryRunIsGood(setup, calls, events);
    var sys := Run(Initial(setup, calls), events);
    assert k in sys.recorded && l in sys.recorded;
    OneSuccessPerAttempt(setup, calls, events, sys.recorded[k], sys.recorded[l]);
  }

  // ---------------------------------------------------------------- what a duplicate means

  /** The attempt is past submission. */
  predicate IsSubmitted(sys: System, a: nat) {
    a < |sys.attempts| && sys.attempts[a].state in {CompletionSubmitted, Completed}
  }

  /** A duplicate was recorded by a request with the same key and payload, for that request's own attempt. */
  lemma DuplicateHasOriginal(setup: Setup, calls: seq<Call>, events: seq<Event>, i: nat) returns (original: nat)
    requires i < |Run(Initial(setup, calls), events).requests|
    requires Run(Initial(setup, calls), events).requests[i].phase == Answered(Duplicate)
    ensures var sys := Run(Initial(setup, calls), events);
            && original < |sys.requests|
            && sys.requests[original].key == sys.requests[i].key
            && sys.requests[original].hash == sys.requests[i].hash
            && Succeeds(sys.requests[original].phase)
            && IsSubmitted(sys, sys.requests[original].attempt)
  {
    EveryRunIsGood(setup, calls, events);
    var sys := Run(Initial(setup, calls), events);
    assert KeyFits(sys.table, sys.recorded, sys.requests[i]);
    original := sys.recorded[sys.requests[i].key];
    assert AttemptFits(sys.attempts, sys.submitter, original, sys.requests[original]);
  }

}
