/** What every run of orchestrator operations keeps, and what a redirect-free run is exactly. */
module StageRuns {
  import opened Prelude
  import opened StableSorting
  import opened EngineRuntime
  import opened StageOrchestrator

  datatype Op =
    | Receive(evaluation: EvaluationResult)
    | Hint
    | Advance
    | Redirect
    | AddReference(stageId: string, attemptId: string)
    | Abandon

  function Step(d: SequenceDefinition, s: SequenceState, op: Op): Result<SequenceState, OrchestratorError> {
    match op
    case Receive(evaluation) =>
      (match ReceiveEngineResult(d, s, evaluation)
       case Err(e) => Err(e)
       case Ok(r) => Ok(r.state))
    case Hint => RequestHint(d, s)
    case Advance => AdvanceStage(d, s)
    case Redirect => RedirectToRemediationTarget(d, s)
    case AddReference(stageId, attemptId) => Ok(AddAttemptReference(s, stageId, attemptId))
    case Abandon => Ok(AbandonSequence(s))
  }

  /** An operation that throws leaves the caller with the state it had. */
  function Apply(d: SequenceDefinition, s: SequenceState, op: Op): SequenceState {
    match Step(d, s, op)
    case Ok(next) => next
    case Err(_) => s
  }

  function RunFrom(d: SequenceDefinition, s: SequenceState, ops: seq<Op>): SequenceState {
    if |ops| == 0 then s else Apply(d, RunFrom(d, s, Front(ops)), Last(ops))
  }

  lemma {:induction false} RunFromConcat(d: SequenceDefinition, s: SequenceState, first: seq<Op>, second: seq<Op>)
    ensures RunFrom(d, s, first + second) == RunFrom(d, RunFrom(d, s, first), second)
  {
    if |second| == 0 {
      assert first + second == first;
    } else {
      RunFromConcat(d, s, first, Front(second));
      assert Front(first + second) == first + Front(second);
    }
  }

  /** At least one stage, and no stage id twice. */
  ghost predicate WellFormed(d: SequenceDefinition) {
    && |d.stages| > 0
    && forall i, j :: 0 <= i < j < |d.stages| ==> d.stages[i].stageId != d.stages[j].stageId
  }

  predicate Known(d: SequenceDefinition, id: string) {
    StageIndex(d.stages, id) < |d.stages|
  }

  function StageOf(d: SequenceDefinition, id: string): StageDefinition
    requires Known(d, id)
  {
    d.stages[StageIndex(d.stages, id)]
  }

  ghost predicate DistinctEntries(entries: seq<StageState>) {
    forall i, j :: 0 <= i < j < |entries| ==> entries[i].stageId != entries[j].stageId
  }

  /** What holds of an entry whatever happened before. */
  predicate EntryFits(d: SequenceDefinition, e: StageState) {
    && Known(d, e.stageId)
    && e.hintLevel == Min(e.hintCount, MaxHintLevel(StageOf(d, e.stageId)))
    && e.status in {InProgress, Completed}
    && (e.checkpointReached ==> StageOf(d, e.stageId).isCheckpoint == Some(true))
    && (e.status == Completed && StageOf(d, e.stageId).isCheckpoint == Some(true) ==> e.checkpointReached)
    && (e.remediationTriggered ==>
          var stage := StageOf(d, e.stageId);
          && stage.remediationPolicy.Some?
          && stage.progressionRule.Some?
          && stage.progressionRule.value.maxAttemptsBeforeRemediation.Some?
          && stage.progressionRule.value.maxAttemptsBeforeRemediation.value <= e.attemptsForStage)
  }

  ghost predicate EntriesFit(d: SequenceDefinition, entries: seq<StageState>) {
    && DistinctEntries(entries)
    && (forall id :: HasEntry(entries, id) ==> EntryFits(d, Entry(entries, id)))
  }

  ghost predicate Consistent(d: SequenceDefinition, s: SequenceState) {
    && EntriesFit(d, s.stageStates)
    && Known(d, s.currentStageId)
    && HasEntry(s.stageStates, s.currentStageId)
    && Distinct(s.attemptReferences)
    && s.sequenceId == d.sequenceId
    && s.sequenceVersion == d.sequenceVersion
    && s.completion != SequenceNotStarted
  }

  // ---------------------------------------------------------------- one operation

  lemma SortedStagesAreTheStages(d: SequenceDefinition)
    requires WellFormed(d)
    ensures |SortedStages(d)| == |d.stages|
    ensures forall i :: 0 <= i < |SortedStages(d)| ==> Known(d, SortedStages(d)[i].stageId)
    ensures forall i, j :: 0 <= i < j < |SortedStages(d)| ==>
      SortedStages(d)[i].stageId != SortedStages(d)[j].stageId
    ensures forall id :: Known(d, id) <==> StageIndex(SortedStages(d), id) < |SortedStages(d)|
  {
    var rank := (s: StageDefinition) => s.order;
    var sorted := SortedStages(d);
    assert sorted == SortBy(d.stages, rank);
    SortIsOrderedPermutation(d.stages, rank);
    forall i | 0 <= i < |sorted| ensures Known(d, sorted[i].stageId) {
      assert sorted[i] in d.stages;
      StageIndexFinds(d.stages, sorted[i].stageId);
    }
    forall id ensures Known(d, id) <==> StageIndex(sorted, id) < |sorted| {
      StageIndexFinds(sorted, id);
      StageIndexFinds(d.stages, id);
      if Known(d, id) { assert StageOf(d, id) in sorted; }
    }
    IdsStayDistinct(d.stages, sorted);
  }

  lemma StageIndexFinds(stages: seq<StageDefinition>, id: string)
    ensures StageIndex(stages, id) < |stages| <==> exists i :: 0 <= i < |stages| && stages[i].stageId == id
  {
  }

  lemma IdsStayDistinct(s: seq<StageDefinition>, t: seq<StageDefinition>)
    requires multiset(s) == multiset(t)
    requires forall i, j :: 0 <= i < j < |s| ==> s[i].stageId != s[j].stageId
    ensures forall i, j :: 0 <= i < j < |t| ==> t[i].stageId != t[j].stageId
  {
    SameMembers(s, t);
    forall i, j | 0 <= i < j < |t| ensures t[i].stageId != t[j].stageId {
      if t[i].stageId == t[j].stageId {
        assert t[i] in s && t[j] in s;
        assert t[i] == t[j];
        TwiceCountsTwo(t, i, j);
        OnceInDistinct(s, t[i]);
        assert false;
      }
    }
  }

  lemma {:induction false} OnceInDistinct(s: seq<StageDefinition>, x: StageDefinition)
    requires forall i, j :: 0 <= i < j < |s| ==> s[i].stageId != s[j].stageId
    ensures multiset(s)[x] <= 1
  {
    if |s| > 0 {
      OnceInDistinct(Front(s), x);
      assert s == Front(s) + [Last(s)];
      if x == Last(s) {
        assert x !in Front(s);
      }
    }
  }

  lemma EntryIndexUnique(entries: seq<StageState>, i: nat)
    requires DistinctEntries(entries) && i < |entries|
    ensures EntryIndex(entries, entries[i].stageId) == i
  {
  }

  /** Writing one entry of a list with distinct entries changes that entry and no other. */
  lemma PutOneEntry(entries: seq<StageState>, id: string, next: StageState)
    requires DistinctEntries(entries) && next.stageId == id
    ensures var put := PutEntry(entries, id, next);
            && DistinctEntries(put)
            && HasEntry(put, id) && Entry(put, id) == next
            && put == (if HasEntry(entries, id) then entries[EntryIndex(entries, id) := next] else entries + [next])
            && forall other :: other != id ==>
                 && (HasEntry(put, other) <==> HasEntry(entries, other))
                 && (HasEntry(entries, other) ==> Entry(put, other) == Entry(entries, other))
  {
    var put := PutEntry(entries, id, next);
    if HasEntry(entries, id) {
      var i := EntryIndex(entries, id);
      assert put == entries[i := next];
      EntryIndexUnique(put, i);
    } else {
      EntryIndexUnique(put, |entries|);
    }
    forall other | other != id
      ensures HasEntry(put, other) <==> HasEntry(entries, other)
      ensures HasEntry(entries, other) ==> Entry(put, other) == Entry(entries, other)
    {
      if HasEntry(entries, other) {
        EntryIndexUnique(put, EntryIndex(entries, other));
      }
    }
  }

  /** Writing the entry at a known position, and writing a new one. */
  lemma PutAt(entries: seq<StageState>, i: nat, next: StageState)
    requires DistinctEntries(entries) && i < |entries| && next.stageId == entries[i].stageId
    ensures PutEntry(entries, next.stageId, next) == entries[i := next]
  {
    EntryIndexUnique(entries, i);
  }

  /** Results received at a stage so far. */
  function Attempts(entries: seq<StageState>, id: string): nat {
    if HasEntry(entries, id) then Entry(entries, id).attemptsForStage else 0
  }

  /** Hints requested at a stage so far. */
  function Hints(entries: seq<StageState>, id: string): nat {
    if HasEntry(entries, id) then Entry(entries, id).hintCount else 0
  }

  /** Nothing recorded in an entry is lost. */
  predicate EntryGrows(e: StageState, f: StageState) {
    && e.hintCount <= f.hintCount
    && e.attemptsForStage <= f.attemptsForStage
    && (e.checkpointReached ==> f.checkpointReached)
    && (e.remediationTriggered ==> f.remediationTriggered)
  }

  ghost predicate EntriesGrow(entries: seq<StageState>, later: seq<StageState>) {
    forall id :: HasEntry(entries, id) ==> HasEntry(later, id) && EntryGrows(Entry(entries, id), Entry(later, id))
  }

  lemma PutKeeps(d: SequenceDefinition, entries: seq<StageState>, id: string, next: StageState)
    requires EntriesFit(d, entries) && next.stageId == id && EntryFits(d, next)
    requires HasEntry(entries, id) ==> EntryGrows(Entry(entries, id), next)
    ensures var put := PutEntry(entries, id, next);
            && EntriesFit(d, put) && EntriesGrow(entries, put)
            && HasEntry(put, id) && Entry(put, id) == next
            && (forall other :: HasEntry(entries, other) ==> HasEntry(put, other))
            && forall other :: other != id ==>
                 Attempts(put, other) == Attempts(entries, other) && Hints(put, other) == Hints(entries, other)
  {
    PutOneEntry(entries, id, next);
  }

  /** How one operation may change a state: identities stay, nothing recorded is lost. */
  ghost predicate Evolves(s: SequenceState, t: SequenceState) {
    && t.runtimeStateId == s.runtimeStateId
    && t.sequenceId == s.sequenceId
    && t.sequenceVersion == s.sequenceVersion
    && s.attemptReferences <= t.attemptReferences
    && EntriesGrow(s.stageStates, t.stageStates)
  }

  lemma EvolvesTransitively(s: SequenceState, t: SequenceState, u: SequenceState)
    requires Evolves(s, t) && Evolves(t, u)
    ensures Evolves(s, u)
  {
  }

  /** The exact condition under which an operation throws, in a consistent state. */
  function ExpectedError(d: SequenceDefinition, s: SequenceState, op: Op): Option<OrchestratorError>
    requires Known(d, s.currentStageId)
  {
    var stage := StageOf(d, s.currentStageId);
    match op
    case Receive(_) => if stage.progressionRule.None? then Some(NoProgressionRule(stage.stageId)) else None
    case Redirect =>
      if stage.remediationPolicy.None? || stage.remediationPolicy.value.targetStageId.None?
         || stage.remediationPolicy.value.targetStageId.value == "" then Some(NoRemediationTarget(stage.stageId))
      else if !Known(d, stage.remediationPolicy.value.targetStageId.value) then
        Some(UnknownStage(stage.remediationPolicy.value.targetStageId.value))
      else None
    case _ => None
  }

  ghost predicate GoodStep(d: SequenceDefinition, s: SequenceState, op: Op, r: Result<SequenceState, OrchestratorError>)
    requires Known(d, s.currentStageId)
  {
    match ExpectedError(d, s, op)
    case Some(e) => r == Err(e)
    case None =>
      && r.Ok?
      && Consistent(d, r.value)
      && Evolves(s, r.value)
      && (op.AddReference? ==> AttemptReference(op.stageId, op.attemptId) in r.value.attemptReferences)
      && (forall id :: Hints(r.value.stageStates, id) ==
            Hints(s.stageStates, id) + if op.Hint? && id == s.currentStageId then 1 else 0)
      && forall id :: Attempts(r.value.stageStates, id) ==
           Attempts(s.stageStates, id) + if op.Receive? && id == s.currentStageId then 1 else 0
  }

  /** The entry `receiveEngineResult` leaves at the current stage, and its verdict. */
  function ReceivedEntry(stage: StageDefinition, rule: ProgressionRule, e: StageState, evaluation: EvaluationResult):
    (StageState, ProgressionOutcome)
  {
    var counted := CountAttempt(e);
    if rule.triggerType != Manual && (rule.triggerType == OnEngineEvaluationCorrect ==> IsCorrect(evaluation)) then
      (CompleteEntry(stage, counted), Advanced)
    else if rule.triggerType == Manual then (counted, AwaitingManualAdvance)
    else if rule.maxAttemptsBeforeRemediation.Some? && stage.remediationPolicy.Some?
         && e.attemptsForStage + 1 >= rule.maxAttemptsBeforeRemediation.value then
      (FlagRemediation(counted), RemediationTriggered)
    else (counted, Retry)
  }

  /** The entry that `receiveEngineResult` starts from: the stage's own, or a created one. */
  function ReceivingEntry(s: SequenceState): StageState {
    if HasEntry(s.stageStates, s.currentStageId) then Entry(s.stageStates, s.currentStageId)
    else FreshEntry(s.currentStageId, 1, EngineResultReceived)
  }

  /** `receiveEngineResult` writes the current stage's entry once, and nothing else. */
  lemma ReceiveUnfolds(d: SequenceDefinition, s: SequenceState, evaluation: EvaluationResult)
    requires DistinctEntries(s.stageStates) && Known(d, s.currentStageId)
    requires StageOf(d, s.currentStageId).progressionRule.Some?
    ensures var id := s.currentStageId;
            var stage := StageOf(d, id);
            var (next, outcome) := ReceivedEntry(stage, stage.progressionRule.value, ReceivingEntry(s), evaluation);
            ReceiveEngineResult(d, s, evaluation) ==
              Ok(EngineResultOutcome(s.(stageStates := PutEntry(s.stageStates, id, next)), outcome))
  {
    var id := s.currentStageId;
    var stage := StageOf(d, id);
    var counted := CountAttempt(ReceivingEntry(s));
    PutOneEntry(s.stageStates, id, counted);
    PutTwice(s.stageStates, id, counted, CompleteEntry(stage, counted));
    PutTwice(s.stageStates, id, counted, FlagRemediation(counted));
  }

  lemma PutTwice(entries: seq<StageState>, id: string, first: StageState, second: StageState)
    requires DistinctEntries(entries) && first.stageId == id && second.stageId == id
    ensures PutEntry(PutEntry(entries, id, first), id, second) == PutEntry(entries, id, second)
  {
    PutOneEntry(entries, id, first);
    PutOneEntry(entries, id, second);
    PutOneEntry(PutEntry(entries, id, first), id, second);
    if HasEntry(entries, id) {
      EntryIndexUnique(entries[EntryIndex(entries, id) := first], EntryIndex(entries, id));
    } else {
      EntryIndexUnique(entries + [first], |entries|);
    }
  }

  /** The received entry fits, loses nothing and counts one more attempt. */
  lemma ReceivedEntryFits(d: SequenceDefinition, rule: ProgressionRule, e: StageState, evaluation: EvaluationResult)
    requires EntryFits(d, e) && StageOf(d, e.stageId).progressionRule == Some(rule)
    ensures var (next, _) := ReceivedEntry(StageOf(d, e.stageId), rule, e, evaluation);
            && next.stageId == e.stageId && EntryFits(d, next) && EntryGrows(e, next)
            && next.attemptsForStage == e.attemptsForStage + 1 && next.hintCount == e.hintCount
  {
  }

  lemma ReceiveKeeps(d: SequenceDefinition, s: SequenceState, evaluation: EvaluationResult)
    requires WellFormed(d) && Consistent(d, s)
    ensures GoodStep(d, s, Receive(evaluation), Step(d, s, Receive(evaluation)))
  {
    var id := s.currentStageId;
    var stage := StageOf(d, id);
    if stage.progressionRule.Some? {
      var rule := stage.progressionRule.value;
      ReceiveUnfolds(d, s, evaluation);
      assert EntryFits(d, Entry(s.stageStates, id));
      ReceivedEntryFits(d, rule, ReceivingEntry(s), evaluation);
      var (next, _) := ReceivedEntry(stage, rule, ReceivingEntry(s), evaluation);
      PutKeeps(d, s.stageStates, id, next);
      var put := PutEntry(s.stageStates, id, next);
      assert Step(d, s, Receive(evaluation)) == Ok(s.(stageStates := put));
      assert Consistent(d, s.(stageStates := put));
    }
  }

  lemma HintKeeps(d: SequenceDefinition, s: SequenceState)
    requires WellFormed(d) && Consistent(d, s)
    ensures GoodStep(d, s, Hint, Step(d, s, Hint))
  {
    var id := s.currentStageId;
    PutKeeps(d, s.stageStates, id, CountHint(Entry(s.stageStates, id), MaxHintLevel(StageOf(d, id))));
  }

  /** The entry of a stage that is entered, whether or not it was visited before. */
  function EnteredEntry(entries: seq<StageState>, id: string): StageState {
    (if HasEntry(entries, id) then Entry(entries, id) else FreshEntry(id, 0, StageEntered))
      .(status := InProgress, lastTransitionEvent := StageEntered)
  }

  lemma RedirectKeeps(d: SequenceDefinition, s: SequenceState)
    requires WellFormed(d) && Consistent(d, s)
    ensures GoodStep(d, s, Redirect, Step(d, s, Redirect))
  {
    var stage := StageOf(d, s.currentStageId);
    if ExpectedError(d, s, Redirect).None? {
      EnteringKeeps(d, s.stageStates, stage.remediationPolicy.value.targetStageId.value);
    }
  }

  /** The entry of the stage that `advanceStage` leaves. */
  function LeftEntry(stage: StageDefinition, e: StageState, last: bool): StageState {
    CompleteEntry(stage, e).(lastTransitionEvent := if last then SequenceCompleted else StageAdvanced)
  }

  function LeftEntries(d: SequenceDefinition, s: SequenceState): seq<StageState>
    requires Known(d, s.currentStageId) && HasEntry(s.stageStates, s.currentStageId)
  {
    var id := s.currentStageId;
    PutEntry(s.stageStates, id, LeftEntry(StageOf(d, id), Entry(s.stageStates, id), OnLastStage(d, s)))
  }

  predicate OnLastStage(d: SequenceDefinition, s: SequenceState) {
    StageIndex(SortedStages(d), s.currentStageId) + 1 == |SortedStages(d)|
  }

  /** The stage after the current one in order. */
  function NextStageId(d: SequenceDefinition, s: SequenceState): string
    requires StageIndex(SortedStages(d), s.currentStageId) + 1 < |SortedStages(d)|
  {
    SortedStages(d)[StageIndex(SortedStages(d), s.currentStageId) + 1].stageId
  }

  /** `advanceStage` rewrites the current entry once, then completes the sequence or enters the next stage. */
  lemma AdvanceUnfolds(d: SequenceDefinition, s: SequenceState)
    requires WellFormed(d) && Consistent(d, s)
    ensures StageIndex(SortedStages(d), s.currentStageId) < |SortedStages(d)|
    ensures OnLastStage(d, s) ==>
      AdvanceStage(d, s) == Ok(s.(stageStates := LeftEntries(d, s), completion := SequenceComplete))
    ensures !OnLastStage(d, s) ==>
      var next := NextStageId(d, s);
      var left := LeftEntries(d, s);
      AdvanceStage(d, s) ==
        Ok(s.(stageStates := PutEntry(left, next, EnteredEntry(left, next)), currentStageId := next))
  {
    SortedStagesAreTheStages(d);
    var id := s.currentStageId;
    var stage := StageOf(d, id);
    var e := Entry(s.stageStates, id);
    var completed := CompleteEntry(stage, e);
    var advanced := completed.(lastTransitionEvent := StageAdvanced);
    PutOneEntry(s.stageStates, id, completed);
    PutTwice(s.stageStates, id, completed, advanced);
    PutOneEntry(s.stageStates, id, advanced);
    PutTwice(s.stageStates, id, advanced, advanced.(lastTransitionEvent := SequenceCompleted));
  }

  /** Leaving the current stage keeps the entries fit and counts no attempt. */
  lemma LeavingKeeps(d: SequenceDefinition, s: SequenceState)
    requires WellFormed(d) && Consistent(d, s)
    ensures var left := LeftEntries(d, s);
            && EntriesFit(d, left) && EntriesGrow(s.stageStates, left)
            && HasEntry(left, s.currentStageId)
            && forall id :: Attempts(left, id) == Attempts(s.stageStates, id) && Hints(left, id) == Hints(s.stageStates, id)
  {
    var id := s.currentStageId;
    PutKeeps(d, s.stageStates, id, LeftEntry(StageOf(d, id), Entry(s.stageStates, id), OnLastStage(d, s)));
  }

  /** Entering a known stage does, too. */
  lemma EnteringKeeps(d: SequenceDefinition, entries: seq<StageState>, id: string)
    requires EntriesFit(d, entries) && Known(d, id)
    ensures var entered := PutEntry(entries, id, EnteredEntry(entries, id));
            && EntriesFit(d, entered) && EntriesGrow(entries, entered)
            && HasEntry(entered, id)
            && (forall other :: HasEntry(entries, other) ==> HasEntry(entered, other))
            && forall other ::
                 Attempts(entered, other) == Attempts(entries, other) && Hints(entered, other) == Hints(entries, other)
  {
    PutKeeps(d, entries, id, EnteredEntry(entries, id));
  }

  lemma AdvanceKeeps(d: SequenceDefinition, s: SequenceState)
    requires WellFormed(d) && Consistent(d, s)
    ensures GoodStep(d, s, Advance, Step(d, s, Advance))
  {
    AdvanceUnfolds(d, s);
    LeavingKeeps(d, s);
    if !OnLastStage(d, s) {
      SortedStagesAreTheStages(d);
      EnteringKeeps(d, LeftEntries(d, s), NextStageId(d, s));
    }
  }

  lemma BookkeepingKeeps(d: SequenceDefinition, s: SequenceState, op: Op)
    requires WellFormed(d) && Consistent(d, s)
    requires op.AddReference? || op.Abandon?
    ensures GoodStep(d, s, op, Step(d, s, op))
  {
  }

  /**
   * One operation on a consistent state: it throws exactly when the definition says
   * so (never one of the program's "unreachable" errors), and otherwise leads to a
   * consistent state that has lost nothing and has counted exactly this result.
   */
  lemma StepIsGood(d: SequenceDefinition, s: SequenceState, op: Op)
    requires WellFormed(d) && Consistent(d, s)
    ensures GoodStep(d, s, op, Step(d, s, op))
  {
    match op {
      case Receive(evaluation) => ReceiveKeeps(d, s, evaluation);
      case Hint => HintKeeps(d, s);
      case Advance => AdvanceKeeps(d, s);
      case Redirect => RedirectKeeps(d, s);
      case AddReference(_, _) => BookkeepingKeeps(d, s, op);
      case Abandon => BookkeepingKeeps(d, s, op);
    }
  }
}
